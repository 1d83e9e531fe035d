/** The report side of the two dashboards, over the rows read back from 'producao': the
    removal of the leading specialty code, the month number, the "MM/YYYY" period label and the
    sort by period, and the performance page of the older dashboard (selection filter and
    group-by-sum per normalised specialty). */
module Reports {
  import opened Seqs
  import opened Strings
  import opened Cells
  import Specialty
  import Production

  // ---- Specialty names ---------------------------------------------------------------------

  /** Length of the leading run of decimal digits. */
  function LeadingDigits(s: string): (k: nat)
    ensures k <= |s| && AllDigits(s[..k])
    ensures k == |s| || !IsDigit(s[k])
  {
    if s != [] && IsDigit(s[0]) then
      var k := 1 + LeadingDigits(s[1..]);
      assert forall j :: 1 <= j < k ==> s[..k][j] == s[1..][..k - 1][j - 1];
      k
    else 0
  }

  /** `str.replace(r'^\d+\s*', '', regex=True)`: one leading code, with the blanks after it, is
      removed; a name not starting with a digit is left as it is. */
  function RemoveCode(s: string): string {
    var k := LeadingDigits(s);
    if k == 0 then s else TrimLeft(s[k..])
  }

  /** The code removal followed by `.str.strip()`. */
  function StripCode(s: string): (r: string)
    ensures Trimmed(r)
  {
    Strip(RemoveCode(s))
  }

  /** The code strip is `strip` applied to what follows the leading digits. */
  lemma StripCodeRest(s: string)
    ensures StripCode(s) == Strip(s[LeadingDigits(s)..])
  {
    var k := LeadingDigits(s);
    if k == 0 {
      assert s[k..] == s;
    } else {
      var l := TrimLeft(s[k..]);
      assert TrimLeft(l) == l;
    }
  }

  /** The digits in front of a non-digit are exactly the leading run. */
  lemma {:induction false} LeadingDigitsOf(code: string, rest: string)
    requires AllDigits(code) && (rest == [] || !IsDigit(rest[0]))
    ensures LeadingDigits(code + rest) == |code|
  {
    if code != [] {
      assert (code + rest)[1..] == code[1..] + rest;
      LeadingDigitsOf(code[1..], rest);
    } else {
      assert code + rest == rest;
    }
  }

  /** A code, the blanks after it and a trimmed name give the name: the code is removed
      once, so a name that itself starts with digits keeps them when a blank separates it
      from the code. */
  lemma CodeRemoved(code: string, blanks: string, name: string)
    requires code != [] && AllDigits(code) && AllSpaces(blanks) && Trimmed(name)
    requires blanks != [] || name == [] || !IsDigit(name[0])
    ensures StripCode(code + blanks + name) == name
  {
    var s := code + blanks + name;
    assert s == code + (blanks + name);
    var rest := blanks + name;
    if blanks != [] {
      assert rest[0] == blanks[0];
    } else {
      assert rest == name;
    }
    LeadingDigitsOf(code, rest);
    assert s[|code|..] == rest;
    TrimLeftPadded(blanks, name);
    StripTrimmed(name);
  }

  /** A name without a leading digit is only trimmed. */
  lemma NoCode(s: string)
    requires s == [] || !IsDigit(s[0])
    ensures StripCode(s) == Strip(s)
  {
  }

  /** The general-data page of the newer dashboard: code strip, then its local normaliser. */
  function GeneralSpecialty(s: string): string {
    Specialty.NormalizePage(StripCode(s))
  }

  /** Normalisation runs on the code-stripped name, so a coded line falls in the group of
      its name, under both normalisers. */
  lemma CodedName(code: string, blanks: string, name: string)
    requires code != [] && AllDigits(code) && blanks != [] && AllSpaces(blanks) && Trimmed(name)
    ensures Specialty.Normalize(StripCode(code + blanks + name)) == Specialty.Normalize(name)
    ensures GeneralSpecialty(code + blanks + name) == Specialty.NormalizePage(name)
  {
    CodeRemoved(code, blanks, name);
  }

  /** "0123 NEUROLOGIA PEDIÁTRICA" is in the paediatric neurology group. */
  lemma CodedNeurology(code: string, blanks: string, name: string)
    requires code != [] && AllDigits(code) && blanks != [] && AllSpaces(blanks) && Trimmed(name)
    requires StartsWith(Specialty.Key(name), "NEUROLOGIA PEDIÁTRICA")
    ensures Specialty.Normalize(StripCode(code + blanks + name)) == "Neurologia Pediátrica"
  {
    CodedName(code, blanks, name);
    NeurologyPrefix("NEUROLOGIA PEDIÁTRICA", "NEUROLOGIA");
    StartsWithPrefix(Specialty.Key(name), "NEUROLOGIA PEDIÁTRICA", "NEUROLOGIA");
    Specialty.NeurologySpecificity(name);
  }

  lemma NeurologyPrefix(q: string, p: string)
    requires q == "NEUROLOGIA PEDIÁTRICA" && p == "NEUROLOGIA"
    ensures StartsWith(q, p)
  {
    assert q[..10] == p;
  }

  /** On the general-data page a coded "GASTROCLÍNICA" line falls in the "GASTROENTEROLOGIA"
      group. */
  lemma CodedGastroclinica(code: string, blanks: string, name: string)
    requires code != [] && AllDigits(code) && blanks != [] && AllSpaces(blanks) && Trimmed(name)
    requires StartsWith(Specialty.Key(name), "GASTROCLÍNICA")
    ensures GeneralSpecialty(code + blanks + name) == "GASTROENTEROLOGIA"
  {
    CodedName(code, blanks, name);
    Specialty.PageGastroclinica(name);
  }

  // ---- Months and periods ------------------------------------------------------------------

  const MonthNames: seq<string> := [
    "janeiro", "fevereiro", "março", "abril", "maio", "junho",
    "julho", "agosto", "setembro", "outubro", "novembro", "dezembro"]

  /** `meses_ordem.index(x) + 1 if x in meses_ordem else 0` */
  function MonthNumber(m: string): (n: nat)
    ensures n <= 12
    ensures n == 0 <==> m !in MonthNames
    ensures n > 0 ==> MonthNames[n - 1] == m
  {
    if m in MonthNames then IndexOf(MonthNames, m) + 1 else 0
  }

  lemma MonthNamesDistinct()
    ensures Distinct(MonthNames)
  {
  }

  /** Each month name gives its position in the year. */
  lemma MonthNumberOfName(i: nat)
    requires i < 12
    ensures MonthNumber(MonthNames[i]) == i + 1
  {
    MonthNamesDistinct();
    IndexOfDistinct(MonthNames, i);
  }

  predicate NoUpperLetter(s: string) {
    forall k :: 0 <= k < |s| ==> !IsUpperLetter(s[k])
  }

  lemma MonthNamesLower()
    ensures forall i :: 0 <= i < 12 ==> NoUpperLetter(MonthNames[i])
  {
  }

  /** A month stored capitalised by the upload, lower-cased again by the page, gets its
      number back. */
  lemma CapitalizedMonth(i: nat)
    requires i < 12
    ensures MonthNumber(Lower(Capitalize(MonthNames[i]))) == i + 1
  {
    MonthNamesLower();
    LowerCapitalize(MonthNames[i]);
    MonthNumberOfName(i);
  }

  /** The "N/A" month of a sheet without a readable F3 has number 0. */
  lemma NotAvailableMonth(m: string)
    requires m == Production.NotAvailable
    ensures MonthNumber(Lower(m)) == 0
  {
    assert |Lower(m)| == 3;
  }

  /** `df['Mes_Num'].astype(str).str.zfill(2) + '/' + df['Ano_Producao'].astype(str)` */
  function PeriodLabel(monthNumber: nat, year: string): string {
    Pad2(monthNumber) + "/" + year
  }

  /** Reading a label back: two digits, a slash, the year. */
  function ReadPeriodLabel(s: string): Option<(nat, string)> {
    if |s| >= 3 && AllDigits(s[..2]) && s[2] == '/' then Some((DigitsValue(s[..2]), s[3..]))
    else None
  }

  /** A label gives back its month number and its year. */
  lemma PeriodLabelRoundTrip(monthNumber: nat, year: string)
    requires monthNumber <= 12
    ensures ReadPeriodLabel(PeriodLabel(monthNumber, year)) == Some((monthNumber, year))
  {
    Pad2Value(monthNumber);
    var s := PeriodLabel(monthNumber, year);
    assert s[..2] == Pad2(monthNumber) && s[3..] == year;
  }

  /** So two periods share a label only when they are the same period. */
  lemma PeriodLabelInjective(m1: nat, y1: string, m2: nat, y2: string)
    requires m1 <= 12 && m2 <= 12 && PeriodLabel(m1, y1) == PeriodLabel(m2, y2)
    ensures m1 == m2 && y1 == y2
  {
    PeriodLabelRoundTrip(m1, y1);
    PeriodLabelRoundTrip(m2, y2);
  }

  // ---- Sorting by period -------------------------------------------------------------------

  /** One row of the absenteeism summary: year, month, month number, group and the two sums. */
  datatype PeriodRow = PeriodRow(
    year: string, month: string, monthNumber: nat, specialty: string, agendados: int, realizados: int)

  /** `sort_values(by=['Ano_Producao', 'Mes_Num'])`: the year as text, then the month number. */
  predicate PeriodLe(a: PeriodRow, b: PeriodRow) {
    LexLess(a.year, b.year) || (a.year == b.year && a.monthNumber <= b.monthNumber)
  }

  lemma PeriodLeTransitive(a: PeriodRow, b: PeriodRow, c: PeriodRow)
    requires PeriodLe(a, b) && PeriodLe(b, c)
    ensures PeriodLe(a, c)
  {
    if LexLess(a.year, b.year) && LexLess(b.year, c.year) {
      LexLessTransitive(a.year, b.year, c.year);
    }
  }

  lemma PeriodLeTotal(a: PeriodRow, b: PeriodRow)
    ensures PeriodLe(a, b) || PeriodLe(b, a)
  {
    if a.year != b.year {
      LexLessTotal(a.year, b.year);
    }
  }

  predicate SortedByPeriod(s: seq<PeriodRow>) {
    forall i, j :: 0 <= i < j < |s| ==> PeriodLe(s[i], s[j])
  }

  /** Places `x` before the first row it does not come after. */
  function InsertByPeriod(x: PeriodRow, s: seq<PeriodRow>): (r: seq<PeriodRow>)
    ensures multiset(r) == multiset(s) + multiset{x}
  {
    if s == [] || PeriodLe(x, s[0]) then [x] + s
    else
      assert s == [s[0]] + s[1..];
      [s[0]] + InsertByPeriod(x, s[1..])
  }

  function SortByPeriod(s: seq<PeriodRow>): (r: seq<PeriodRow>)
    ensures multiset(r) == multiset(s)
  {
    if s == [] then []
    else
      assert s == [s[0]] + s[1..];
      InsertByPeriod(s[0], SortByPeriod(s[1..]))
  }

  lemma {:induction false} InsertSorted(x: PeriodRow, s: seq<PeriodRow>)
    requires SortedByPeriod(s)
    ensures SortedByPeriod(InsertByPeriod(x, s))
  {
    if s == [] || PeriodLe(x, s[0]) {
      var r := [x] + s;
      forall i, j | 0 <= i < j < |r| ensures PeriodLe(r[i], r[j]) {
        if i == 0 && j > 1 {
          PeriodLeTransitive(x, s[0], s[j - 1]);
        }
      }
    } else {
      PeriodLeTotal(x, s[0]);
      InsertSorted(x, s[1..]);
      var t := InsertByPeriod(x, s[1..]);
      var r := [s[0]] + t;
      forall j | 0 <= j < |t| ensures PeriodLe(s[0], t[j]) {
        assert t[j] in multiset(t);
        assert t[j] in multiset(s[1..]) || t[j] == x;
        if t[j] != x {
          var k :| 0 <= k < |s[1..]| && s[1..][k] == t[j];
          assert s[k + 1] == t[j];
        }
      }
      forall i, j | 0 <= i < j < |r| ensures PeriodLe(r[i], r[j]) {
        if i == 0 {
          assert r[j] == t[j - 1];
        } else {
          assert r[i] == t[i - 1] && r[j] == t[j - 1];
        }
      }
    }
  }

  /** The sort gives rows in period order, and the same rows. */
  lemma {:induction false} SortByPeriodSorted(s: seq<PeriodRow>)
    ensures SortedByPeriod(SortByPeriod(s))
    ensures multiset(SortByPeriod(s)) == multiset(s)
  {
    if s != [] {
      SortByPeriodSorted(s[1..]);
      InsertSorted(s[0], SortByPeriod(s[1..]));
    }
  }

  // ---- The performance page of the older dashboard ------------------------------------------

  /** A 'producao' row as the page reads it back: the specialty as text, the three counts,
      the stored month and year. */
  datatype ProducaoRecord = ProducaoRecord(
    especialidade: string, oferta: int, agendados: int, realizados: int, mes: string, ano: string)

  /** The row after the page's column updates. */
  datatype PageRow = PageRow(
    especialidade: string, normalizada: string, mes: string, mesNum: nat, ano: string,
    oferta: int, agendados: int, realizados: int)

  /** The code strip, the normalised specialty, the lower-cased month and its number. */
  function Prepare(r: ProducaoRecord): (p: PageRow)
    ensures p.normalizada == Specialty.Normalize(StripCode(r.especialidade))
    ensures p.mesNum == MonthNumber(Lower(r.mes)) && p.ano == r.ano
  {
    var especialidade := StripCode(r.especialidade);
    var mes := Lower(r.mes);
    PageRow(especialidade, Specialty.Normalize(especialidade), mes, MonthNumber(mes), r.ano,
      r.oferta, r.agendados, r.realizados)
  }

  function PrepareAll(records: seq<ProducaoRecord>): (rows: seq<PageRow>)
    ensures |rows| == |records| && forall i :: 0 <= i < |records| ==> rows[i] == Prepare(records[i])
  {
    seq(|records|, i requires 0 <= i < |records| => Prepare(records[i]))
  }

  /** The month filter's options are sorted by `meses_ordem.index`, which fails on a month
      that is not one of the twelve names. */
  predicate MonthsKnown(rows: seq<PageRow>) {
    forall i :: 0 <= i < |rows| ==> rows[i].mes in MonthNames
  }

  /** The three multiselect filters: year, month and normalised specialty. */
  predicate Selected(r: PageRow, years: set<string>, months: set<string>, specialties: set<string>) {
    r.ano in years && r.mes in months && r.normalizada in specialties
  }

  function SelectRows(rows: seq<PageRow>, years: set<string>, months: set<string>, specialties: set<string>): seq<PageRow> {
    Filter(rows, r => Selected(r, years, months, specialties))
  }

  /** The kept rows are exactly the selected ones, in their original order. */
  lemma SelectRowsExact(rows: seq<PageRow>, years: set<string>, months: set<string>, specialties: set<string>)
    ensures forall r :: (r in SelectRows(rows, years, months, specialties) <==>
      r in rows && Selected(r, years, months, specialties))
    ensures forall a, b :: (SelectRows(a + b, years, months, specialties) ==
      SelectRows(a, years, months, specialties) + SelectRows(b, years, months, specialties))
  {
    var keep := (r: PageRow) => Selected(r, years, months, specialties);
    forall r | r in rows && keep(r) ensures r in Filter(rows, keep) {
      FilterKeeps(rows, keep, r);
    }
    forall a, b ensures Filter(a + b, keep) == Filter(a, keep) + Filter(b, keep) {
      FilterAppend(a, b, keep);
    }
  }

  /** The default selection (every value offered) keeps every row. */
  lemma DefaultSelection(rows: seq<PageRow>, years: set<string>, months: set<string>, specialties: set<string>)
    requires forall i :: 0 <= i < |rows| ==>
      rows[i].ano in years && rows[i].mes in months && rows[i].normalizada in specialties
    ensures SelectRows(rows, years, months, specialties) == rows
  {
    FilterAll(rows, r => Selected(r, years, months, specialties));
  }

  // ---- Group-by-sum ------------------------------------------------------------------------

  datatype Totals = Totals(oferta: int, agendados: int, realizados: int)

  const NoTotals: Totals := Totals(0, 0, 0)

  function Add(a: Totals, b: Totals): Totals {
    Totals(a.oferta + b.oferta, a.agendados + b.agendados, a.realizados + b.realizados)
  }

  function TotalsOf(r: PageRow): Totals {
    Totals(r.oferta, r.agendados, r.realizados)
  }

  /** The sums over every row. */
  function SumOf(rows: seq<PageRow>): Totals {
    if rows == [] then NoTotals else Add(SumOf(rows[..|rows| - 1]), TotalsOf(rows[|rows| - 1]))
  }

  /** The sums over the rows of one group. */
  function SumWhere(rows: seq<PageRow>, key: string): Totals {
    if rows == [] then NoTotals
    else
      var last := rows[|rows| - 1];
      Add(SumWhere(rows[..|rows| - 1], key), if last.normalizada == key then TotalsOf(last) else NoTotals)
  }

  /** `groupby('Especialidade_Normalizada').agg(sum)`: one entry per group met in `rows`. */
  function GroupSums(rows: seq<PageRow>): (g: map<string, Totals>)
    ensures forall key :: key in g <==> exists i :: 0 <= i < |rows| && rows[i].normalizada == key
  {
    if rows == [] then map[]
    else
      var init := rows[..|rows| - 1];
      var last := rows[|rows| - 1];
      var g := GroupSums(init);
      assert forall i :: 0 <= i < |init| ==> init[i] == rows[i];
      g[last.normalizada := if last.normalizada in g then Add(g[last.normalizada], TotalsOf(last)) else TotalsOf(last)]
  }

  /** Each group holds the sums of exactly its own rows. */
  lemma {:induction false} GroupSumsValues(rows: seq<PageRow>, key: string)
    requires key in GroupSums(rows)
    ensures GroupSums(rows)[key] == SumWhere(rows, key)
  {
    var init := rows[..|rows| - 1];
    var last := rows[|rows| - 1];
    var g := GroupSums(init);
    GroupSumsLast(rows);
    if last.normalizada != key {
      GroupSumsValues(init, key);
    } else if key in g {
      GroupSumsValues(init, key);
    } else {
      SumWhereAbsent(init, key);
    }
  }

  /** The sums of `rows` are those of all rows but the last, with the last one added to its group. */
  lemma GroupSumsLast(rows: seq<PageRow>)
    requires rows != []
    ensures var init := rows[..|rows| - 1]; var last := rows[|rows| - 1];
      (forall i :: 0 <= i < |init| ==> init[i] == rows[i])
      && (last.normalizada !in GroupSums(init) ==> forall i :: 0 <= i < |init| ==> init[i].normalizada != last.normalizada)
      && (forall key :: key in GroupSums(rows) && key != last.normalizada ==>
        key in GroupSums(init) && GroupSums(rows)[key] == GroupSums(init)[key]
        && SumWhere(rows, key) == SumWhere(init, key))
      && GroupSums(rows)[last.normalizada] == (if last.normalizada in GroupSums(init)
        then Add(GroupSums(init)[last.normalizada], TotalsOf(last)) else TotalsOf(last))
      && SumWhere(rows, last.normalizada) == Add(SumWhere(init, last.normalizada), TotalsOf(last))
  {
  }

  /** A group with no row sums to nothing. */
  lemma {:induction false} SumWhereAbsent(rows: seq<PageRow>, key: string)
    requires forall i :: 0 <= i < |rows| ==> rows[i].normalizada != key
    ensures SumWhere(rows, key) == NoTotals
  {
    if rows != [] {
      var init := rows[..|rows| - 1];
      assert forall i :: 0 <= i < |init| ==> init[i] == rows[i];
      SumWhereAbsent(init, key);
      assert rows[|rows| - 1].normalizada != key;
    }
  }

  /** The sums of the groups listed in `keys`. */
  function SumGroups(rows: seq<PageRow>, keys: seq<string>): Totals {
    if keys == [] then NoTotals else Add(SumWhere(rows, keys[0]), SumGroups(rows, keys[1..]))
  }

  /** Adding a row adds its counts to exactly one of distinct groups containing its key. */
  lemma {:induction false} SumGroupsStep(rows: seq<PageRow>, r: PageRow, keys: seq<string>)
    requires Distinct(keys)
    ensures SumGroups(rows + [r], keys)
      == Add(SumGroups(rows, keys), if r.normalizada in keys then TotalsOf(r) else NoTotals)
  {
    if keys == [] {
      AddNothing(NoTotals);
    } else {
      var tail := keys[1..];
      DistinctTail(keys);
      SumGroupsStep(rows, r, tail);
      SumWhereSnoc(rows, r, keys[0]);
      var a, b := SumWhere(rows, keys[0]), SumGroups(rows, tail);
      var x := if r.normalizada == keys[0] then TotalsOf(r) else NoTotals;
      var y := if r.normalizada in tail then TotalsOf(r) else NoTotals;
      AddSwap(a, b, x, y);
      AddNothing(TotalsOf(r));
      InCons(r.normalizada, keys);
    }
  }

  lemma InCons(x: string, keys: seq<string>)
    requires keys != []
    ensures x in keys <==> x == keys[0] || x in keys[1..]
  {
    assert keys == [keys[0]] + keys[1..];
  }

  lemma AddSwap(a: Totals, b: Totals, x: Totals, y: Totals)
    ensures Add(Add(a, x), Add(b, y)) == Add(Add(a, b), Add(x, y))
  {}

  lemma AddNothing(t: Totals)
    ensures Add(t, NoTotals) == t && Add(NoTotals, t) == t && Add(NoTotals, NoTotals) == NoTotals
  {}

  lemma DistinctTail(keys: seq<string>)
    requires Distinct(keys) && keys != []
    ensures Distinct(keys[1..]) && keys[0] !in keys[1..]
  {
    var tail := keys[1..];
    forall a, b | 0 <= a < b < |tail| ensures tail[a] != tail[b] {
      assert tail[a] == keys[a + 1] && tail[b] == keys[b + 1];
    }
    forall k | 0 <= k < |tail| ensures tail[k] != keys[0] {
      assert tail[k] == keys[k + 1];
    }
  }

  lemma SumWhereSnoc(rows: seq<PageRow>, r: PageRow, key: string)
    ensures SumWhere(rows + [r], key)
      == Add(SumWhere(rows, key), if r.normalizada == key then TotalsOf(r) else NoTotals)
  {
    assert (rows + [r])[..|rows + [r]| - 1] == rows;
  }

  /** The group totals add up to the totals of all the rows grouped: nothing is lost or
      counted twice. */
  lemma {:induction false} GroupTotalsPreserved(rows: seq<PageRow>, keys: seq<string>)
    requires Distinct(keys) && forall i :: 0 <= i < |rows| ==> rows[i].normalizada in keys
    ensures SumGroups(rows, keys) == SumOf(rows)
  {
    if rows == [] {
      SumGroupsEmpty(keys);
    } else {
      var init := rows[..|rows| - 1];
      var last := rows[|rows| - 1];
      assert init + [last] == rows;
      GroupTotalsPreserved(init, keys);
      SumGroupsStep(init, last, keys);
    }
  }

  lemma {:induction false} SumGroupsEmpty(keys: seq<string>)
    ensures SumGroups([], keys) == NoTotals
  {
    if keys != [] {
      SumGroupsEmpty(keys[1..]);
    }
  }

  /** Builds the groups in one pass over the rows. */
  method GroupBySum(rows: seq<PageRow>) returns (groups: map<string, Totals>)
    ensures groups == GroupSums(rows)
  {
    groups := map[];
    for i := 0 to |rows|
      invariant groups == GroupSums(rows[..i])
    {
      assert rows[..i + 1][..i] == rows[..i];
      var r := rows[i];
      if r.normalizada in groups {
        groups := groups[r.normalizada := Add(groups[r.normalizada], TotalsOf(r))];
      } else {
        groups := groups[r.normalizada := TotalsOf(r)];
      }
    }
    assert rows[..|rows|] == rows;
  }

  // ---- The page ----------------------------------------------------------------------------

  /** What the page shows: its error message, the no-data warning, or the groups. */
  datatype PerformanceView = PageError | NoData | Grouped(groups: map<string, Totals>)

  function Performance(records: seq<ProducaoRecord>, years: set<string>, months: set<string>, specialties: set<string>): PerformanceView {
    var rows := PrepareAll(records);
    if !MonthsKnown(rows) then PageError
    else
      var kept := SelectRows(rows, years, months, specialties);
      if kept == [] then NoData else Grouped(GroupSums(kept))
  }

  /** The page, step by step: the column updates, the month-option sort, the filter, the
      group-by. */
  method PerformancePage(records: seq<ProducaoRecord>, years: set<string>, months: set<string>, specialties: set<string>)
    returns (view: PerformanceView)
    ensures view == Performance(records, years, months, specialties)
  {
    var rows := PrepareAll(records);
    // The month options are sorted by their place in the month list: an unknown month
    // raises, and the page shows its error.
    if !MonthsKnown(rows) {
      return PageError;
    }
    var kept := SelectRows(rows, years, months, specialties);
    if kept == [] {
      return NoData;
    }
    var groups := GroupBySum(kept);
    view := Grouped(groups);
  }

  /** The page fails exactly when some stored month, lower-cased, is not one of the twelve
      names, whatever the selection. */
  lemma PerformanceFails(records: seq<ProducaoRecord>, years: set<string>, months: set<string>, specialties: set<string>)
    ensures Performance(records, years, months, specialties) == PageError <==>
      exists i :: 0 <= i < |records| && MonthNumber(Lower(records[i].mes)) == 0
  {
    var rows := PrepareAll(records);
    if !MonthsKnown(rows) {
      var i :| 0 <= i < |rows| && rows[i].mes !in MonthNames;
      assert MonthNumber(Lower(records[i].mes)) == 0;
    }
  }

  /** A single row stored with the "N/A" month (any .xls or .csv upload, or an .xlsx upload
      without a readable F3) makes the page fail. */
  lemma NotAvailableBreaksPage(records: seq<ProducaoRecord>, years: set<string>, months: set<string>, specialties: set<string>, i: nat)
    requires i < |records| && records[i].mes == Production.NotAvailable
    ensures Performance(records, years, months, specialties) == PageError
  {
    NotAvailableMonth(records[i].mes);
    PerformanceFails(records, years, months, specialties);
  }

  /** When the page shows groups, there is one per normalised specialty of the selected rows,
      and each holds the sums of its selected rows. */
  lemma PerformanceGroups(records: seq<ProducaoRecord>, years: set<string>, months: set<string>, specialties: set<string>)
    requires Performance(records, years, months, specialties).Grouped?
    ensures var kept := SelectRows(PrepareAll(records), years, months, specialties);
      var g := Performance(records, years, months, specialties).groups;
      (forall key :: key in g <==> exists i :: 0 <= i < |kept| && kept[i].normalizada == key)
      && (forall key :: key in g ==> g[key] == SumWhere(kept, key))
  {
    var kept := SelectRows(PrepareAll(records), years, months, specialties);
    forall key | key in GroupSums(kept) ensures GroupSums(kept)[key] == SumWhere(kept, key) {
      GroupSumsValues(kept, key);
    }
  }
}
