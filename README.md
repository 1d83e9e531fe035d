# Ingestion and normalisation of the AME Caraguatatuba production dashboard

This project models, in Dafny, the data-handling core of a Streamlit dashboard that loads a
clinic's SIRESP production exports, its medical-contract sheet and its CDR (municipality)
CSV into a database, and that reports on the stored production rows.

- `uploads.py` (and its older copy `uploads-old.py`, which is the same code without the CDR
  path) holds the specialty normaliser and the three upload handlers. The normaliser is a pure
  function over an ordered table of prefix rules (`Specialty`). The handlers are step-by-step
  methods (`Uploads`) that write to an in-memory store (`Storage.Store`). Each is proved
  equal to a specification function (`Production.SirespUpload`, `Contracts.ContractsUpload`,
  `Cdr.CdrUpload`) whose properties are proved as lemmas.
- `app.py` contributes its own insertion page (`Uploads.InsertProducao`, with the unguarded
  F3 split `Production.PageStamp`) and a second, smaller local normaliser
  (`Specialty.PageRules`).
- `app-old.py` contributes the report helpers (`Reports`). These are the leading-code strip,
  the month number, the `MM/YYYY` period label and the sort by period. They also include the
  performance page's selection filter and its group-by-sum per normalised specialty.

What the readers would return is an input to the model. For a production file that is the
workbook's A3/F3 cells, the sheet read after six skipped rows, and the CSV table. For a CDR
file it is the outcome of each of the two CSV readings. The `st.warning`/`st.info` calls
become returned `Notice`s. The `st.error` calls and the exceptions caught around each upload
become a `Fail` result, and nothing is written then.

Module layout: `Seqs` (option, order-preserving filter), `Strings` (Python `str` operations),
`Cells` (cells, `str()` rendering, column selection and dropping), `Outcomes` (notices,
failures, results), `Specialty`, `Production`, `Contracts`, `Cdr`, `Storage`, `Uploads`,
`Reports`.

Behaviour of the code that the lemmas make explicit:
- The F3 text is cut at every lower-case "de". A month that itself contains "de" therefore
  splits into three pieces, and the unpacking raises. "dezembro de 2025" is such a text, so
  a December sheet stores nothing (`Production.DecemberExample`).
- The performance page of `app-old.py` sorts its month options with `list.index`, which
  has no fallback. Any stored month that is not one of the twelve names makes the whole page
  show its error. This includes the "N/A" stored by every .xls or .csv upload
  (`Reports.NotAvailableBreaksPage`).
- The CDR 'Município' check runs before the columns are dropped. A 'Município' column placed
  after 'Observação Status' passes the check and is then removed (`Cdr.MunicipioCanBeCut`).

Where the written design and the code differ, the model follows the code:
- The normaliser returns the label of the first rule in written order, not of the longest
  prefix. An unmatched name comes back upper-cased and trimmed, not unchanged.
- A CSV production file that lacks one of the four columns fails with a message that names
  all four expected columns, not only the absent ones.
- For .xls and .csv production files the "metadata not available" message is an
  information message (`st.info`), not a warning.
- The CDR fallback from (UTF-8, ',') to (Latin-1, ';') happens only on a decoding or parsing
  error. Any other reader failure ends the upload at once.

## Model

| member | source | states |
|---|---|---|
| `Specialty.KeyOfKey` | uploads.py:11 | upper-casing and trimming a second time changes nothing |
| `Specialty.FirstMatch` | uploads.py:12-51 | the chosen rule is the first in written order that matches; no earlier rule matches; none is chosen only when no rule matches |
| `Specialty.NormalizeWith` | uploads.py:9-53 | the normaliser over a rule table; specified by `NormalizeWithFirstAt`, `NormalizeWithNone`, `NormalizeWithInsensitive` and `NormalizeWithRange` |
| `Specialty.NormalizeWithFirstAt` | uploads.py:12-51 | when rule i is the first rule whose prefix starts the key, the result is rule i's label |
| `Specialty.NormalizeWithNone` | uploads.py:53 | when no rule matches, the result is the upper-cased, trimmed name, not the original |
| `Specialty.NormalizeWithInsensitive` | uploads.py:11 | letter case and blank padding of the input never change the result |
| `Specialty.NormalizeWithRange` | uploads.py:9-53 | every result is a label of the table or the key of the input |
| `Specialty.NormalizeWithIdempotent` | uploads.py:9-53 | a table whose labels are fixed points gives an idempotent normaliser |
| `Specialty.Normalize` | uploads.py:9-53 | the upload module's normaliser: `NormalizeWith` over the twenty rules of uploads.py:12-51; idempotent by `NormalizeIdempotent` |
| `Specialty.UploadLabelsFixed` | uploads.py:12-51 | each canonical label, upper-cased, is caught by its own rule before any other (Gastroenterologia by its second prefix) |
| `Specialty.NormalizeIdempotent` | uploads.py:9-53 | normalising twice equals normalising once |
| `Specialty.NormalizeUnmatched` | uploads-old.py:10-52 | in the older copy too, a name no rule catches comes back upper-cased and trimmed |
| `Specialty.NeurologySpecificity` | uploads.py:42-45 | a key starting "NEUROLOGIA PEDIÁTRICA" gives "Neurologia Pediátrica"; any other key starting "NEUROLOGIA" gives "Neurologia Adulto" |
| `Specialty.PneumologySpecificity` | uploads.py:46-49 | the same ordering for "PNEUMOLOGIA PEDIÁTRICA" and "PNEUMOLOGIA" |
| `Specialty.GastroenterologyGroup` | uploads.py:30-31 | both the "GASTROCLÍNICA" and the "GASTROENTEROLOGIA" spelling give "Gastroenterologia" |
| `Specialty.PlasticSurgery` | uploads.py:12-13 | anything after the "CIRURGIA PLÁSTICA" prefix gives "Cirurgia Plástica" |
| `Specialty.NormalizePage` | app.py:122-149 | the page's normaliser: `NormalizeWith` over the twelve rules of app.py:124-147; idempotent by `NormalizePageIdempotent` |
| `Specialty.NormalizePageIdempotent` | app.py:122-149 | the local normaliser is idempotent: each label equals its own prefix or, for "GASTROENTEROLOGIA", matches no rule |
| `Specialty.PageGastroclinica` | app.py:138-139 | on the page only "GASTROCLÍNICA…" becomes "GASTROENTEROLOGIA" |
| `Specialty.PageGastroenterology` | app.py:122-149 | on the page a name starting "GASTROENTEROLOGIA" matches no rule and comes back as its key |
| `Strings.JoinSplit` | uploads.py:82 | `split('de')` loses nothing: joining the pieces with "de" rebuilds the text |
| `Strings.SplitPieces` | uploads.py:81-82 | the split cuts at every occurrence: there are several pieces exactly when "de" occurs, and no piece contains it |
| `Strings.LowerCapitalize` | app-old.py:117 | a capitalised lower-case month, lower-cased again, is the month |
| `Cells.Select` | uploads.py:158 | `df[names]` has the named columns in the order given, each cell taken from its labelled column |
| `Cells.TakeColumns` | uploads.py:94 | `iloc[:, :k]` keeps the first k labels and the first k cells of every row |
| `Cells.DropColumn` | uploads.py:264 | dropping one column leaves the other labels in order and removes that cell from every row |
| `Cells.DropColumnKeeps` | uploads.py:264 | after a drop every remaining column still holds its original cells |
| `Production.Suffix` | uploads.py:61 | `splitext(...)[1]` is empty or a dot followed by the name's last dot-free, slash-free tail |
| `Production.SuffixOf` | uploads.py:61 | a stem plus "." plus a tail has exactly that suffix |
| `Production.SuffixOfDotName` | uploads.py:61 | a name made only of a dot and a tail (".csv") has no suffix |
| `Production.FormatOf` | uploads.py:68-97 | the branch is .xlsx, .xls or .csv exactly when the lower-cased suffix is that string |
| `Production.UpperCaseSuffix` | uploads.py:61 | the suffix test ignores letter case (".XLSX", ".Csv") |
| `Production.LastSuffixOnly` | uploads.py:61 | only the last suffix counts: "x.xlsx.bak" is unsupported |
| `Production.ReadPeriod` | uploads.py:81-86 | F3 is unrecognised exactly when it is falsy or lacks "de"; more than two pieces make the unpacking fail |
| `Production.ReadPeriodOneSeparator` | uploads.py:81-84 | a period is read only from a text with one "de": month = capitalize(strip(before)), year = strip(after) |
| `Production.ReadMonthOfYear` | uploads-old.py:80-83 | month and year without 'd' around one "de" give the capitalised, trimmed month and the trimmed year |
| `Production.ReadMonthDeYear` | uploads.py:81-84 | "<mês> de <ano>" with trimmed parts gives (capitalize(mês), ano) |
| `Production.ReadTwoSeparators` | uploads.py:82 | two occurrences of "de" give three pieces and the unpacking fails |
| `Production.JuneExample` | uploads.py:81-84 | "junho de 2025" gives ("Junho", "2025") |
| `Production.DecemberExample` | uploads.py:82 | "dezembro de 2025" splits into three pieces and fails |
| `Production.TitleStamp` | uploads.py:73-86 | an empty A3 gives type "N/A" with a warning, otherwise str(A3); an F3 read as a period gives its month and year; an empty F3 or one without "de" gives month and year "N/A" with a warning; the stamp fails exactly when F3 unpacks badly |
| `Production.SheetBody` | uploads.py:93-95 | the body is the first four cells of every row, and fails when there are fewer than four columns |
| `Production.CsvBody` | uploads-old.py:100-104 | a CSV body takes the four named columns in fixed order; a missing one fails with all four names |
| `Production.KeepRows` | uploads.py:114-115 | the two masks in turn; `KeepRowsMembers`, `KeepRowsAppend` and `KeepRowsSingle` state which rows survive and in what order |
| `Production.KeepRowsMembers` | uploads.py:114-115 | a row is kept exactly when its Oferta is present and its lower-cased, untrimmed text is not "total" |
| `Production.KeepRowsAppend` | uploads.py:114-115 | the filter works row by row and keeps the original order |
| `Production.KeepRowsSingle` | uploads-old.py:113-114 | one row survives exactly when both masks let it through |
| `Production.TotalRowExamples` | uploads.py:115 | "TOTAL" is dropped; " Total" (not trimmed) is kept |
| `Production.Stamped` | uploads.py:118-120 | every kept row gets the same type, month and year, in order |
| `Production.SirespUpload` | uploads.py:55-131 | the whole production upload: suffix dispatch, stamp, body, filter; stated by `UnsupportedRefused`, `SirespStored`, `SirespRowsKept` and the per-format lemmas below |
| `Production.UnsupportedRefused` | uploads.py:107-109 | any other lower-cased suffix fails with nothing read or stored |
| `Production.FinishOk` | uploads.py:112-123 | success means stamp and body succeeded, and the stored rows are the kept body rows under the stamp |
| `Production.StampedKept` | uploads.py:114-120 | every stored row carries the stamp and passes both masks |
| `Production.SirespStored` | uploads.py:60-123 | a stored batch is the kept body under one stamp: "N/A" for .xls/.csv, the A3/F3 reading for .xlsx |
| `Production.SirespRowsKept` | uploads-old.py:113-122 | all rows of one upload share the stamp, and each has a present, non-"total" Oferta |
| `Production.XlsStampsNotAvailable` | uploads.py:89-90 | .xls uploads stamp "N/A" on every row and give only the .xls notice |
| `Production.XlsxStampsPeriod` | uploads.py:73-84 | an .xlsx whose F3 reads as a period stamps it on every row; an empty A3 gives type "N/A" and a warning |
| `Production.XlsxUnrecognizedNotAvailable` | uploads.py:81-86 | an .xlsx whose F3 is empty or lacks "de" still stores its rows (exactly when the sheet reads), every one with month and year "N/A", and warns |
| `Production.XlsxUnpackFails` | uploads.py:81-82 | an F3 splitting into more than two pieces fails the .xlsx upload, whatever the sheet |
| `Production.PageStamp` | app.py:32-34 | the page's F3 split succeeds only on a text with exactly two pieces; the type is A3 as is |
| `Production.PageStampAgrees` | app.py:34-51 | where both readings succeed they agree on month and year |
| `Production.PageNoSeparatorFails` | app.py:34 | an F3 without "de" fails on the page, where the upload module falls back to "N/A" |
| `Production.PageUpload` | app.py:25-61 | the insertion page's reading: its own stamp, the first four columns, the same filter; stated by `PageUploadKeeps` |
| `Production.PageUploadKeeps` | app.py:41-54 | the page stores the first four columns with the same row filter and one stamp |
| `Contracts.RenameArea` | uploads.py:141-142 | only a first column named 'Área' is renamed to 'Especialidade'; other labels are unchanged |
| `Contracts.MissingColumnsExact` | uploads.py:152-153 | a column is listed missing exactly when it is required and absent |
| `Contracts.NoneMissing` | uploads.py:152 | nothing is reported missing exactly when every required column is present |
| `Contracts.AreaAliasAccepted` | uploads.py:141-152 | a sheet with 'Área' first and the nine other required columns lacks nothing |
| `Contracts.ToNumber` | uploads.py:164 | `pd.to_numeric(errors='coerce')` on one cell: numbers stay, text is parsed, anything else is missing; stated by `ParseDigits`, `ParseNatToString` and `ParseDecimal` |
| `Contracts.ParseDigits` | uploads.py:164 | a digit string coerces to its value |
| `Contracts.ParseNatToString` | uploads.py:164 | the rendering of a natural number coerces back to it |
| `Contracts.ParseDecimal` | uploads.py:171 | "digits.digits" coerces to whole part plus fraction |
| `Contracts.CostCenterValid` | uploads.py:165 | numeric, integral and within [10000000, 99999999]; stated by `CostCenterInt`, `CostCenterText` and `CostCenterFraction` |
| `Contracts.CostCenterCell` | uploads.py:164-168 | an invalid cost centre is nulled; a kept one is an integer in [10000000, 99999999] equal to the coerced value |
| `Contracts.CostCenterInt` | uploads.py:165 | an integer is a valid cost centre exactly when it has eight digits |
| `Contracts.CostCenterText` | uploads.py:164-165 | a cost centre typed as text is judged by its value and stored as that integer |
| `Contracts.CostCenterFraction` | uploads.py:165 | a number with a fraction is never a valid cost centre |
| `Contracts.UnitValueCell` | uploads.py:171-172 | the unit value is missing exactly when it does not coerce to a number |
| `Contracts.ParseContractDate` | uploads.py:176 | a parsed date is a real day that a Timestamp can hold |
| `Contracts.ParseDateText` | uploads.py:176 | every representable date written DD/MM/YYYY parses back to itself |
| `Contracts.LeapDay` | uploads.py:176 | 29/02 parses only in leap years |
| `Contracts.ContractDateCell` | uploads.py:176-177 | a kept date is a representable day |
| `Contracts.CleanText` | uploads.py:181-182 | every text column becomes trimmed text |
| `Contracts.CleanTextMissing` | uploads.py:182 | a missing text cell becomes "" |
| `Contracts.CleanTextPlain` | uploads.py:182 | text other than "nan" is only trimmed |
| `Contracts.PaddedNanSurvives` | uploads.py:182 | the "nan" replacement matches whole values and runs before strip, so " nan" becomes "nan" |
| `Contracts.ContractErrors` | uploads.py:161-178 | each rule gives its message exactly when some row fails it, at most once, in the order CC, Valor, Data |
| `Contracts.CleanRows` | uploads.py:161-182 | the batch after every conversion and clean-up, row by row; stated by `CleanRowsStored` and `CleanTextColumns` |
| `Contracts.CleanRowsStored` | uploads.py:161-182 | a batch without messages cleans into rows with an 8-digit cost centre, a number, a date and trimmed text |
| `Contracts.ConvertColumn` | uploads.py:164-166 | one column is converted row by row, with a flag that holds exactly when some converted cell is missing |
| `Contracts.CheckColumns` | uploads.py:161-178 | the three checks, run in turn over all rows, each appending its message when it fails (`Report`, collected by `Messages` in run order), give exactly the batch's message list |
| `Contracts.CleanTextColumns` | uploads.py:181-182 | the seven text columns are cleaned in turn, giving the fully cleaned batch |
| `Contracts.ValidateContracts` | uploads.py:160-182 | the messages and the batch after every conversion and clean-up |
| `Contracts.Head` | uploads.py:190 | the preview is the first five rows (all rows when there are fewer) |
| `Contracts.ContractsUpload` | uploads.py:133-218 | the whole contract upload: rename, column check, the three rules, clean-up; stated by `ContractsAllOrNothing` and `ContractsMissingColumns` |
| `Contracts.RenamedUpload` | uploads.py:151-195 | the stages after the rename; stated by `RenamedChecked` |
| `Contracts.ContractsAllOrNothing` | uploads.py:185-211 | every row is stored, cleaned, exactly when all rows pass all three rules; otherwise none, with the full message list |
| `Contracts.RenamedChecked` | uploads.py:157-195 | once the columns are present and distinct, the three rules alone decide between storing the cleaned batch and listing the failed rules |
| `Contracts.ContractsMissingColumns` | uploads.py:152-155 | a missing required column stores nothing and lists exactly the absent columns in required order |
| `Cdr.ReadCdr` | uploads.py:234-247 | UTF-8/comma first; only on a decode/parse error, Latin-1/semicolon with a warning; a second failure is terminal |
| `Cdr.DropListed` | uploads.py:256-266 | drops each listed column that is present and warns for each absent one; always gives a well-formed table; stated by `DropListedSpec` |
| `Cdr.DropListedSpec` | uploads.py:256-266 | dropping the listed columns leaves the others in order with their cells, and warns once per absent name in list order |
| `Cdr.DropColumns` | uploads.py:262-266 | the loop drops the columns one at a time and collects the same warnings |
| `Cdr.Truncate` | uploads.py:269-274 | every column from 'Observação Status' onward is dropped; without it the table is unchanged |
| `Cdr.CdrUpload` | uploads.py:228-295 | nothing is stored exactly when the suffix is not .csv, both readings fail, or 'Município' is absent from the table read |
| `Cdr.Cleaned` | uploads.py:262-272 | after the drops and the truncation the survivors keep order and cells, and no listed name is left |
| `Cdr.CleanCdr` | uploads.py:249-274 | the stages after reading: the 'Município' check, the drops and the truncation; stated by `Cleaned`, `CdrStored` and `CdrWarnings` |
| `Cdr.CdrStored` | uploads.py:249-290 | the stored table is the read table minus the seven listed columns and from 'Observação Status' on |
| `Cdr.CdrWarnings` | uploads.py:238-274 | the notices are the retry warning, one per absent listed column, and one for a missing sentinel |
| `Cdr.CutAfterSentinel` | uploads.py:269-272 | a column after 'Observação Status' never survives |
| `Cdr.MunicipioCanBeCut` | uploads.py:251-272 | 'Município' is checked before the truncation, so it can be removed afterwards |
| `Storage.Store.AppendProducao` | uploads.py:123 | 'producao' grows by the batch; the other tables are unchanged |
| `Storage.Store.AppendContratos` | uploads.py:211 | 'contratos' grows by the batch; the other tables are unchanged |
| `Storage.Store.ReplaceCdr` | uploads.py:290 | 'cdr' becomes the new table; the other tables are unchanged |
| `Uploads.ProcessSirespUpload` | uploads.py:55-131 | the handler reports what the production specification gives, and appends exactly the stored rows, only on success |
| `Uploads.ProcessContratosUpload` | uploads.py:133-218 | the handler reports what the contract specification gives, and appends only a batch without messages |
| `Uploads.CheckRenamed` | uploads.py:151-195 | after the rename, the column check, the validation and the clean-up give what the contract specification gives |
| `Uploads.ReadWithFallback` | uploads.py:233-247 | the two readings behave as the fallback specification says |
| `Uploads.ProcessCdrUpload` | uploads.py:220-299 | the handler replaces 'cdr' with the cleaned table only on success |
| `Uploads.CleanRead` | uploads.py:249-274 | after reading, the check for 'Município', the drops and the truncation give what the CDR specification gives |
| `Uploads.InsertProducao` | app.py:25-61 | the page appends the page's rows only on success; nothing else changes |
| `Reports.LeadingDigits` | app-old.py:113 | the `^\d+` match is the whole leading run of digits |
| `Reports.RemoveCode` | app-old.py:113 | `str.replace(r'^\d+\s*', '')`: one leading code and the blanks after it are removed; stated by `StripCodeRest`, `CodeRemoved` and `NoCode` |
| `Reports.StripCode` | app-old.py:113 | the code-stripped name is trimmed |
| `Reports.StripCodeRest` | app-old.py:113 | the result is strip of what follows the leading digits |
| `Reports.CodeRemoved` | app-old.py:113 | a code, blanks and a trimmed name give the name, with the code removed once |
| `Reports.NoCode` | app-old.py:113 | a name not starting with a digit is only trimmed |
| `Reports.CodedName` | app-old.py:113-116 | normalisation runs on the code-stripped name, under both normalisers |
| `Reports.CodedNeurology` | app-old.py:113-116 | "0123 NEUROLOGIA PEDIÁTRICA" falls in "Neurologia Pediátrica" |
| `Reports.CodedGastroclinica` | app.py:119-151 | on the page a coded "GASTROCLÍNICA" line falls in "GASTROENTEROLOGIA" |
| `Reports.MonthNumber` | app-old.py:117-118 | the number is 1..12 for the twelve names (position + 1) and 0 for anything else |
| `Reports.MonthNumberOfName` | app-old.py:28-29 | each month name gives its place in the year |
| `Reports.CapitalizedMonth` | app-old.py:117-118 | a month stored capitalised and lower-cased again gets its number back |
| `Reports.NotAvailableMonth` | app.py:71-74 | the "N/A" month has number 0 |
| `Reports.PeriodLabel` | app-old.py:295 | zfill(2) of the month number, "/" and the year; stated by `PeriodLabelRoundTrip` and `PeriodLabelInjective` |
| `Reports.PeriodLabelRoundTrip` | app-old.py:295 | the label is two zero-padded digits, "/", and the year, and reads back to both |
| `Reports.PeriodLabelInjective` | app.py:97 | two periods share a label only when they are the same period |
| `Reports.InsertByPeriod` | app-old.py:296 | inserting a row keeps every row |
| `Reports.SortByPeriod` | app-old.py:296 | the result is a permutation of the input (multiset); its order is stated by `SortByPeriodSorted` |
| `Reports.SortByPeriodSorted` | app-old.py:296 | rows sorted by (year, month number) are ordered and are a permutation of the input |
| `Reports.Prepare` | app-old.py:113-118 | each row gets its normalised code-stripped specialty and the number of its lower-cased month |
| `Reports.SelectRows` | app-old.py:131-135 | the three `isin` masks; stated by `SelectRowsExact` and `DefaultSelection` |
| `Reports.SelectRowsExact` | app-old.py:131-135 | the filter keeps exactly the rows whose year, month and group are selected, in original order |
| `Reports.DefaultSelection` | app-old.py:126-135 | the default selection of every value keeps every row |
| `Reports.GroupSums` | app-old.py:141-145 | there is one group per distinct normalised specialty among the rows |
| `Reports.GroupSumsValues` | app-old.py:141-145 | each group holds the sums of exactly its own rows |
| `Reports.GroupTotalsPreserved` | app-old.py:141-145 | the group totals add up to the totals of the filtered rows |
| `Reports.GroupBySum` | app-old.py:141-145 | the one-pass loop builds exactly these groups |
| `Reports.Performance` | app-old.py:109-165 | the page's view: the error, the no-data warning or the groups; stated by `PerformanceFails`, `NotAvailableBreaksPage` and `PerformanceGroups` |
| `Reports.PerformancePage` | app-old.py:109-165 | the page's steps give the page's view |
| `Reports.PerformanceFails` | app-old.py:122 | the page fails exactly when some stored month, lower-cased, is not one of the twelve names |
| `Reports.NotAvailableBreaksPage` | app-old.py:122 | one row with the "N/A" month makes the page fail |
| `Reports.PerformanceGroups` | app-old.py:137-145 | the groups shown are one per selected normalised specialty, each with its selected rows' sums |

## Left out

- Streamlit presentation (widgets, session state, login, sidebar, `st.success`,
  `st.dataframe`, `st.exception`): only the messages are modelled, as notices and failures.
- Charts (plotly) and the Excel re-export (xlsxwriter): library rendering.
- Absenteeism percentages: floating-point division, rounding and decimal-comma formatting.
- The readers are not modelled: openpyxl, `read_excel` with `skiprows=6` and `read_csv`
  with its encodings. What they return is an input, and any exception they raise becomes
  `ReaderFailed`. Bytes, encodings and delimiters are not modelled.
- SQL engine: `CREATE TABLE`, `to_sql` and column types, including the Servico/Serviço
  naming mismatch. The store is three in-memory sequences. The round trip through the
  database is not modelled, so the report helpers start from rows as read back.
- Authentication (`USERS`, `authenticate`, `setup_users.py`): hard-coded credentials and
  hashing.
- `upload.py`: a one-off script whose logic duplicates the production extractor.
- The groupings of the newer dashboard's performance and general-data pages by period for
  charts (app.py:95-104 and its table exports): chart and export input only. The general-data
  page's normaliser and code strip are modelled.
- The sort of the month filter options is modelled only through its failure on an unknown
  month. The order of the options is a widget concern.
- Strings.Upper: Unicode case mapping is modelled only for the ASCII and Latin-1 letters whose
  other case is one code point away. Other letters are left unchanged, so `upper`, `lower`
  and `capitalize` are exact only on that range. This covers every label and month name the
  code tests.
- Cells.Render: `str()` of a float is written as its exact decimal expansion to at most
  17 digits. Python's shortest round-trip form and scientific notation are not modelled.
- Contracts.ParseNumber: the parsed number is an exact real, not the nearest float64 that
  `pd.to_numeric` gives. A text such as "99999999.000000001" rounds to 99999999.0 in pandas
  and passes the cost-centre check, while `CostCenterValid` rejects it as fractional.
- Contracts.ParseDecimal: "digits.digits" is stated to give the exact decimal value, not
  its float64 rounding, for the reason given under `Contracts.ParseNumber`.
- Strings.IsDigit: only '0'..'9' are digits. Python's `\d` on `str` also matches every other
  Unicode decimal digit (for example '٣' or '３'), both in the code strip's `^\d+` and in
  `strptime`'s `%d/%m/%Y`, so `Contracts.DayField`, `Contracts.MonthField` and
  `Contracts.YearField` are narrowed the same way.
- Reports.LeadingDigits: the `^\d+` match counts ASCII digits only, as under `Strings.IsDigit`.
- Contracts.ParseNumber: `pd.to_numeric` is modelled on text as an optional sign and a
  decimal with surrounding blanks. Exponents, "inf"/"nan" spellings and thousands
  separators are treated as not numeric.
- Contracts.ContractDateCell: `pd.to_datetime` with format `%d/%m/%Y` is modelled on text
  and on date cells. Numeric cells in the date column are treated as unparseable.
- Contracts.ParseContractDate: time-of-day parts are not modelled, and the `Timestamp`
  range is given as whole days (1677-09-22 to 2262-04-11).
- Production counts (Oferta, Agendados, Realizados) are not validated at upload, as in the
  source. The report helpers take them as integers.
