# WhatsApp lead bot: keyed upsert and lead pipeline, in Dafny

The system receives WhatsApp Cloud API webhooks. For each message it keeps one
spreadsheet row per message id (the *wamid*) and sends a notification e-mail.
This project models its core and proves properties of that model:

- the keyed *upsert* against a row store (`sheets_write.py`): the header index,
  the lookup of the key column, the insert path and the selective in-place
  update path;
- the lead *pipeline* that drives the upsert (`scripts/append_and_notify.py`):
  extract, validate, dedupe, provisional upsert, notify, final upsert and
  response;
- the smaller helpers around them:
  - the header check and column scan of `scripts/sheets_repo.py`;
  - A1-notation parsing and row shaping in `scripts/read_range_to_csv.py`;
  - recipient lists, tag stripping and send gating in `scripts/send_email.py`
    and `scripts/mailer.py`;
  - row rebuilding and exit codes of `scripts/read_by_wamid.py`;
  - the phone search of `scripts/read_range.py`.

The worksheet is an in-memory grid. `Sheet.Worksheet` is a class whose `cells`
field is a `seq<seq<string>>`; index 0 is sheet row 1, the header row. Its
methods are the gspread calls the source uses: `row_values`, `cell`,
`col_values`, `get_all_values`, `append_row` and `update`. A cell past the end
of a row, or in a row that does not exist, reads as `""`, as in gspread.

A record (a Python dict of field name to value, or None) is a sequence of
`Records.Field`s in insertion order. Setting an existing key keeps its place,
and a new key goes to the end, so the iteration order of `record.items()` is
modelled. The environment is a `map<string, string>`. The clock, the e-mail
regex, the notifier's outcome, the SMTP session's success and the failure of
individual store calls are parameters.

Each source file with a loop or in-place change is modelled imperatively. Each
`method` is proved against a specification function; the lemmas then state the
promised properties of that function.

| module | source | what it holds |
|---|---|---|
| `Wrappers`, `Text` | — | Option/Result; Python `strip`, `lower`, `upper`, `split`, `join`, `replace`, `in` on strings, `int()` on decimal strings |
| `Env`, `Records`, `Sheet` | — | `os.getenv` with a default, the `_flag` truthy set, dicts, the worksheet class |
| `SheetsWrite` | `sheets_write.py` | column names, header index, key lookup, `append_by_header`, `upsert_by_wamid` |
| `LeadPipeline` | `scripts/append_and_notify.py` | `_digits_only`, `_extract_from_webhook`, its own key lookup, `process_incoming` |
| `SheetsRepo` | `scripts/sheets_repo.py` | `HEADERS`, `_ensure_headers`, `find_wamid` |
| `RangeCsv` | `scripts/read_range_to_csv.py` | column letters, A1 ranges, header slices, row length, unique file names |
| `SendEmail` | `scripts/send_email.py` | recipient dedupe, `_strip_html`, `_smtp_send` gating, legacy `send_email` |
| `Mailer` | `scripts/mailer.py` | `_bool`, `_first_nonempty`, `validate_smtp_cfg`, `send_email` |
| `ReadByWamid` | `scripts/read_by_wamid.py` | `_row_dict`, exit codes of `main` |
| `ReadRange` | `scripts/read_range.py` | `_normalize_digits`, the phone matching loop, the row rebuild |

The key lookups of the upsert (`_find_row_by_wamid`) and of the pipeline's
dedupe step (`_find_row_idx_by_wamid`) are modelled in corrected form: both
scans skip the header row. As written, their fast path also accepts the header
cell, so a key equal to the key column's own header name finds row 1. Every
member built on `SheetsWrite.FindRow` or `LeadPipeline.DedupeRow` (the upsert,
its insert and update paths, the dedupe step and the whole pipeline) therefore
describes the corrected behaviour. The lookups as written are modelled beside
them (`SheetsWrite.FindRowAsWritten`, `LeadPipeline.DedupeRowAsWritten`) and
compared with them under "Findings".

Where the prose description of the system and the code disagree, the model
follows the code. The cases are these:

- `_cfg` in `scripts/mailer.py` calls `int()` on `SMTP_PORT` and `SMTP_TIMEOUT`
  before anything else. A malformed number therefore raises even when sending
  is disabled (`Mailer.BadNumberRaises`).
- The legacy `send_email` takes `[to_email.strip()]` whenever `to_email` is
  non-empty. A whitespace-only `to_email` therefore gives the list `[""]`
  (`SendEmail.LegacyRecipientsFacts`).
- `_smtp_send` slices between the first `<` and the first `>` whenever both
  occur. When `>` comes first, the sender address is `""`
  (`SendEmail.FromAddressReversed`).

## Model

| member | source | states |
|---|---|---|
| Env.EnvValue | sheets_write.py:37-38 | a configuration value is trimmed, and an unset variable yields its trimmed default |
| Env.FlagDefault | scripts/append_and_notify.py:79-80 | an unset flag is on exactly when its default is 1 |
| Env.BlankIsFalse | scripts/append_and_notify.py:79-80 | a blank or missing flag value is never truthy |
| Records.Set | sheets_write.py:266 | assigning `record[k]` makes `k` hold the new value and leaves every other key's presence and value alone; an existing key keeps its place, and a new key is added at the end |
| Records.FromPairsGet | scripts/read_by_wamid.py:30 | a dict built from pairs holds `k` exactly when some pair has key `k`, and then it holds the value of the last such pair |
| Records.FromPairsDistinctGet | scripts/append_and_notify.py:265-274 | with distinct keys, each pair's value is what the dict holds for its key |
| Sheet.Column | sheets_write.py:157 | the column read has one entry per sheet row |
| Sheet.ColumnAt | sheets_write.py:157 | entry `i` of the column is the cell of row `i + 1`, `""` where that row is short |
| Sheet.WriteCell | sheets_write.py:280 | writing column `c` sets that cell, pads the row when it is short, and changes no other cell |
| Sheet.WriteFirstRow | scripts/sheets_repo.py:91 | writing row 1 puts the values at its start, leaves later header cells and all other rows unchanged, and creates row 1 in an empty sheet |
| Sheet.Worksheet.RowValues | scripts/read_by_wamid.py:21-22 | `row_values(r)` returns row `r` as stored, or `[]` when the row does not exist (trailing blank cells kept, see Left out) |
| Sheet.Worksheet.CellValue | sheets_write.py:261 | `cell(r, c)` returns the cell, `""` when absent |
| Sheet.Worksheet.ColValues | sheets_write.py:157 | `col_values(c)` returns the whole column `c`, header included |
| Sheet.Worksheet.CountRows | sheets_write.py:244 | `len(get_all_values())` is the number of stored rows (trailing blank rows counted, see Left out) |
| Sheet.Worksheet.AppendRow | sheets_write.py:236 | `append_row` adds exactly one row below every stored row and changes nothing else (the placement of the Sheets table detection is a gap, see Left out) |
| Sheet.Worksheet.UpdateCell | sheets_write.py:280 | `update(a1, v)` replaces one cell of one row, as `WriteCell` describes |
| Sheet.Worksheet.UpdateFirstRow | scripts/sheets_repo.py:91 | the `A1:G1` update replaces the start of row 1, as `WriteFirstRow` describes |
| SheetsWrite.ColnamesNormalized | sheets_write.py:40-52 | every configured column name is trimmed and lower-case |
| SheetsWrite.ColNameDefault | sheets_write.py:40-52 | an unset variable gives the default name |
| SheetsWrite.HeaderPosUpTo | sheets_write.py:117-123 | after the loop has seen `n` headers, a position found is below `n` and holds a header whose trimmed, lower-cased form is the non-empty name |
| SheetsWrite.HeaderPosLast | sheets_write.py:117-123 | no later header among the first `n` has the name, because a later duplicate overwrites an earlier one |
| SheetsWrite.HeaderPosComplete | sheets_write.py:117-123 | every non-blank header is indexed at or after its own position, and two names never share an index |
| SheetsWrite.HeaderPosInjective | sheets_write.py:117-123 | distinct names have distinct positions |
| SheetsWrite.HeaderIndexMap | sheets_write.py:114-123 | the dict the loop builds has exactly the non-empty normalised names as keys, and each maps to that name's position, below the header length |
| SheetsWrite.FirstMatch | sheets_write.py:148-150 | any index the scan returns is at or after its start, inside the column, and matches |
| SheetsWrite.FirstMatchSpec | sheets_write.py:148-150 | nothing between the start and the index returned matches, and the scan returns None exactly when nothing from the start on matches |
| SheetsWrite.ExactScanFirst | sheets_write.py:146-151 | the fast path's row holds the key exactly in the key column and no earlier data row does |
| SheetsWrite.TrimmedScanFirst | sheets_write.py:155-162 | the fallback runs only when no data row holds the key exactly, and no data row before its answer has a trimmed key cell equal to the key |
| SheetsWrite.FindRowByKey | sheets_write.py:129-166 | the method (fast path, then fallback scan) returns the model lookup `FindRow` |
| SheetsWrite.KeyColumnOf | sheets_write.py:137-144 | the key column is read from the header index, or is absent |
| SheetsWrite.ScanKeyColumn | sheets_write.py:145-162 | both loops, exact then trimmed, return the scan of the key column |
| SheetsWrite.ScanExact | sheets_write.py:146-151 | the fast-path loop returns the first data row whose key cell equals the key exactly |
| SheetsWrite.ScanTrimmed | sheets_write.py:155-162 | the fallback loop skips the header and returns the first row whose trimmed key cell equals the key |
| SheetsWrite.FindRow | sheets_write.py:129-166 | any row returned is a data row (2 to the row count) |
| SheetsWrite.FindRowSound | sheets_write.py:133-162 | a row is found only for a non-blank key and a key column present in the header; that row's trimmed key cell equals the trimmed key |
| SheetsWrite.FindRowNoneIff | sheets_write.py:133-166 | None exactly when the trimmed key is empty, the key column is missing, or no data row's trimmed key cell equals the key |
| SheetsWrite.FindRowFirst | sheets_write.py:146-162 | the row found is the first exact match, or, with no exact match anywhere, the first trimmed match |
| SheetsWrite.FindRowIgnoresOtherColumns | sheets_write.py:145-162 | two sheets with the same header and key column give the same answer, whatever the other columns (message bodies included) hold |
| SheetsWrite.FindRowAsWrittenAgrees | sheets_write.py:146-151 | the lookup as written and the corrected one agree unless the header cell of the key column equals the key |
| SheetsWrite.FindRowAsWrittenHitsHeader | sheets_write.py:148-151 | as written, key `wamid` in a sheet whose key column is named `wamid` returns the header row 1; the corrected lookup returns None |
| SheetsWrite.PlaceFields | sheets_write.py:231-234 | placing fields keeps the row length |
| SheetsWrite.InsertRow | sheets_write.py:230 | the new row has width max(1, header length) |
| SheetsWrite.InsertRowLayout | sheets_write.py:230-234 | the new row has width max(1, header length); each mapped field's value, the last assignment winning and None shown as `""`, sits at its header index; every other cell is `""` |
| SheetsWrite.BuildRow | sheets_write.py:230-234 | the row built from the sheet's header is the layout above |
| SheetsWrite.FillRow | sheets_write.py:230-234 | the loop filling `row_values` by index produces that layout |
| SheetsWrite.UpdateRow | sheets_write.py:272-282 | the updated row is never shorter than the original |
| SheetsWrite.WriteFieldCell | sheets_write.py:273-282 | one step of the field loop never shortens the row |
| SheetsWrite.UpdateRowStep | sheets_write.py:272-282 | the loop's row after one field more is one `WriteFieldCell` step after the row before it |
| SheetsWrite.UpdateRowAt | sheets_write.py:272-282 | a mapped column is left alone when immutable and otherwise ends holding the record's last value for it (None as `""`); a column the record lacks is unchanged |
| SheetsWrite.UpdateRowElsewhere | sheets_write.py:272-282 | cells in columns that map to no header name are never written |
| SheetsWrite.Upsert | sheets_write.py:204-285 | the method's result, the sheet afterwards and the caller's record afterwards are those of the upsert model |
| SheetsWrite.UpsertCore | sheets_write.py:217-285 | the same, once the column configuration is read |
| SheetsWrite.UpsertNew | sheets_write.py:225-250 | with a key not found, the method's result and sheet are those of the insert model |
| SheetsWrite.UpsertFound | sheets_write.py:225-285 | with a key found in row `r`, the method's result, sheet and record are those of the update model |
| SheetsWrite.InsertNew | sheets_write.py:227-250 | the insert path appends exactly the header-aligned row; it reports the re-lookup result, else the row count |
| SheetsWrite.UpdateExisting | sheets_write.py:252-285 | the update path returns the merged record and changes only the found row, as `UpdateRow` describes |
| SheetsWrite.PreserveTimestamp | sheets_write.py:259-266 | the timestamp is injected into the record exactly when preserving, the column exists and the stored cell is non-empty |
| SheetsWrite.IndexAt | sheets_write.py:114-123 | the header dict holds a name exactly when the header scan finds it, and maps it to that position |
| SheetsWrite.WriteField | sheets_write.py:273-282 | writing one field changes only the target row, by one `WriteFieldCell` step |
| SheetsWrite.WriteFields | sheets_write.py:272-282 | the cell-by-cell loop changes only the target row, as `UpdateRow` describes |
| SheetsWrite.FindAfterAppend | sheets_write.py:236-247 | after appending to a sheet without the key, the lookup finds either nothing or the new last row, and finds the new row when its key cell holds the key |
| SheetsWrite.RowWriteKeepsFound | sheets_write.py:272-282 | rewriting the found row, with its key cell kept or set to the key, keeps the lookup on that row |
| SheetsWrite.UpsertRequiresKey | sheets_write.py:218-222 | the upsert fails (ValueError) exactly when the key field holds no non-blank key, and then nothing changes; the key field is the literal `wamid` when the record has that key, whatever its value, and the configured alias only otherwise |
| SheetsWrite.UpsertInserts | sheets_write.py:225-250 | with a key that is not found, exactly one header-aligned row is appended; the result is (row count + 1, created) and the record is unchanged |
| SheetsWrite.UpdateRowCells | sheets_write.py:272-282 | every cell of the updated row is the written value when its column is mapped, present in the record and not immutable, and otherwise the old cell |
| SheetsWrite.UpsertUpdates | sheets_write.py:225-285 | with a key found in row `r`, the result is (`r`, not created); the row count and every other row are unchanged; in row `r` only mapped, present, non-immutable columns of the merged record are written |
| SheetsWrite.MergeRecordFields | sheets_write.py:259-270 | the merged record holds the stored timestamp when preserving and the stored cell is non-empty, and `now` in `updated_at` exactly when that column exists and the record's value is missing or blank; every other field is unchanged |
| SheetsWrite.UpsertIsUpdate | sheets_write.py:225-257 | when the key is found, the upsert is the update of that data row |
| SheetsWrite.MergedTimestamp | sheets_write.py:259-266 | with preservation and a non-empty stored timestamp, the value written for the timestamp column is the stored one |
| SheetsWrite.MergedUpdatedAt | sheets_write.py:268-270 | the value written for `updated_at` is the record's non-blank value, else `now` |
| SheetsWrite.UpdatePreservesTimestamp | sheets_write.py:259-282 | with preservation and a non-empty stored timestamp, the timestamp cell keeps its old value after the update |
| SheetsWrite.UpdateFillsUpdatedAt | sheets_write.py:268-282 | a mutable `updated_at` cell ends holding the record's non-blank value, else `now` |
| SheetsWrite.MergedOther | sheets_write.py:272-282 | every other present field is written with the caller's value |
| SheetsWrite.UpdatedKeyCell | sheets_write.py:272-282 | an update whose merged record holds the key changes only the found row, and its key cell ends holding the key or its old value |
| SheetsWrite.UpdateKeepsRowFound | sheets_write.py:272-285 | after an update that writes the key into the key column, the key still finds the same row |
| SheetsWrite.InsertedCell | sheets_write.py:230-236 | after an insert, the new row holds each mapped field's value in its column |
| SheetsWrite.InsertedKeyCell | sheets_write.py:230-236 | the inserted row's key cell holds the record's key field as placed |
| SheetsWrite.InsertThenFound | sheets_write.py:236-247 | after an insert whose row holds the key in the key column, the re-lookup returns that new row |
| SheetsWrite.UpsertFoundResult | sheets_write.py:252-285 | a key found in row `r` gives (`r`, not created) and no new row; with `InsertThenFound`, a second upsert of the same key updates the row the first one created |
| SheetsWrite.AppendByHeader | sheets_write.py:172-201 | `append_by_header` (corrected) appends exactly the header-aligned row and reports the created row, the last one |
| SheetsWrite.AppendAsWrittenAgrees | sheets_write.py:187-201 | for a key that is not yet in the sheet, the row reported as written (through the lookup as written) is the created row, unless the key column's header cell is the key itself, when it is row 1 |
| SheetsWrite.OlderRowFound | sheets_write.py:146-151 | in a sheet whose rows 2 and 3 both hold `m1`, both the corrected lookup and the lookup as written return row 2 |
| SheetsWrite.AppendAsWrittenReportsOlderRow | sheets_write.py:189-195 | as written, appending a second record with key `m1` creates row 3 but reports row 2 |
| LeadPipeline.Digits | scripts/append_and_notify.py:101-102 | the result holds only digits and is no longer than the input |
| LeadPipeline.DigitsAppend | scripts/append_and_notify.py:101-102 | digit extraction distributes over concatenation, so the digits come out in input order |
| LeadPipeline.DigitsOfDigits | scripts/append_and_notify.py:101-102 | a string of digits is kept whole |
| LeadPipeline.StrippedOrEmpty | scripts/append_and_notify.py:184-187 | an extracted text field is trimmed |
| LeadPipeline.DigitsOf | scripts/append_and_notify.py:185 | the extracted phone holds only digits |
| LeadPipeline.NonEmpty | scripts/append_and_notify.py:195-200 | `x or None`: None exactly for the empty string, else the string itself |
| LeadPipeline.ReadMessage | scripts/append_and_notify.py:176-187 | when the first entry, change, message and contact can be read, the wamid, name and text come out trimmed and the phone as digits |
| LeadPipeline.ExtractWellFormed | scripts/append_and_notify.py:176-202 | an extracted lead has no empty field, trimmed wamid, name and message, a digits-only phone, source `whatsapp`, and the regex match lower-cased as its email (None when nothing matches) |
| LeadPipeline.ExtractEmpty | scripts/append_and_notify.py:176-202 | an empty payload extracts to all None but source `whatsapp` |
| LeadPipeline.ExtractRaisesOnEmptyChanges | scripts/append_and_notify.py:177-178 | an entry with an empty `changes` list makes the extraction raise |
| LeadPipeline.DedupeRow | scripts/append_and_notify.py:137-153 | any row returned is a data row |
| LeadPipeline.FindWamidRow | scripts/append_and_notify.py:137-153 | the method returns the model of the dedupe lookup |
| LeadPipeline.DedupeRowSound | scripts/append_and_notify.py:139-150 | a row is found exactly when the wamid is non-empty, the key column exists and some data row's key cell equals it exactly; the row found is the first such |
| LeadPipeline.DedupeRowIsUpsertRow | scripts/append_and_notify.py:137-153 | for a trimmed wamid, a row the dedupe lookup finds is the row the upsert's lookup finds |
| LeadPipeline.DedupeRowAsWrittenAgrees | scripts/append_and_notify.py:147-150 | as written and corrected agree unless the key column's header cell equals the wamid |
| LeadPipeline.DedupeRowAsWrittenHitsHeader | scripts/append_and_notify.py:147-150 | as written, wamid `wamid` in a sheet whose key column is `wamid` returns header row 1; corrected, None |
| LeadPipeline.DedupeStep | scripts/append_and_notify.py:240-261 | the method returns the dedupe model for the configured flag and column names |
| LeadPipeline.DedupeCore | scripts/append_and_notify.py:240-261 | the same with the configuration given |
| LeadPipeline.DedupeIff | scripts/append_and_notify.py:240-261 | is_dup holds exactly when the flag is on, the wamid is present, the lookup does not raise and it finds a row; row_idx is set exactly then; an existing timestamp is read only for a duplicate whose timestamp column exists, and is that row's cell |
| LeadPipeline.ProcessIncoming | scripts/append_and_notify.py:209-340 | the response, the sheet afterwards and whether the notifier ran are those of the pipeline model |
| LeadPipeline.HandleLead | scripts/append_and_notify.py:224-340 | the same from an extracted lead on |
| LeadPipeline.Provisional | scripts/append_and_notify.py:263-340 | the same from the base record on |
| LeadPipeline.StoreUpsert | scripts/append_and_notify.py:156-163 | a store call succeeds exactly when it does not fail and the upsert has a key; a failed call leaves the sheet unchanged; a successful one has the upsert's effect |
| LeadPipeline.NotifyStep | scripts/append_and_notify.py:284-300 | the notifier runs exactly for a new event, and the e-mail status follows its outcome |
| LeadPipeline.Finish | scripts/append_and_notify.py:284-340 | the same pipeline model from notification to response |
| LeadPipeline.ExtractFailureStops | scripts/append_and_notify.py:218-222 | an extraction error returns `extract_failed` with the sheet untouched and no notification |
| LeadPipeline.InvalidLeadStops | scripts/append_and_notify.py:224-226 | an empty wamid, phone and name return `invalid_payload` with no store read or write and no notification |
| LeadPipeline.LeadSpecFinishes | scripts/append_and_notify.py:240-340 | a valid lead whose provisional upsert succeeds continues from the sheet that upsert left |
| LeadPipeline.ValidLeadAccepted | scripts/append_and_notify.py:224-226 | a lead with a wamid, phone or name is never rejected as invalid |
| LeadPipeline.EmptyPayloadInvalid | scripts/append_and_notify.py:218-226 | an empty payload is rejected as invalid, with no store access |
| LeadPipeline.BaseRecordStatus | scripts/append_and_notify.py:273 | the provisional status_email is `pending` for a new event and `skipped` for a duplicate |
| LeadPipeline.FinalRecordUpdatedAt | scripts/append_and_notify.py:309-319 | the final record's `updated_at` is the chosen timestamp |
| LeadPipeline.UpdatedAtForChoice | scripts/append_and_notify.py:307 | the chosen timestamp is the existing one when present, else the base record's timestamp, else now; it is never empty when now is not |
| LeadPipeline.ProvisionalFailureStops | scripts/append_and_notify.py:276-281 | `sheets_upsert_failed` is returned exactly when the provisional upsert fails; any failure leaves the sheet unchanged and the notifier not called |
| LeadPipeline.NotifyOutcomes | scripts/append_and_notify.py:284-340 | a duplicate ends with email `skipped`; otherwise `sent` exactly for a delivery and `error` for a false return or a raise; status is `dedupe` exactly for a duplicate and `ok` otherwise; the row and wamid are echoed |
| LeadPipeline.FinishNotifies | scripts/append_and_notify.py:284-340 | the notifier runs exactly for a new event, and the response is the one `NotifyOutcomes` describes |
| LeadPipeline.FinalFailureIgnored | scripts/append_and_notify.py:304-322 | a failing final upsert changes neither the response nor the notification, and leaves the sheet as the provisional step left it |
| LeadPipeline.BaseRecordFields | scripts/append_and_notify.py:264-274 | with the pipeline's column aliases equal to the writer's, the base record carries now as timestamp and the lead's wamid under the key column, which is the upsert's key field |
| LeadPipeline.FinalRecordFields | scripts/append_and_notify.py:309-319 | the final record keeps the base timestamp (else now) and wamid, and carries the chosen `updated_at` |
| LeadPipeline.ProvisionalInserts | scripts/append_and_notify.py:264-278 | provisional upsert of a new wamid: one row is appended, holding the key and now as timestamp; the key then finds that row |
| LeadPipeline.ProvisionalUpdates | scripts/append_and_notify.py:264-278 | provisional upsert of a known wamid: same row count, the key still finds the row, and the timestamp cell holds the merged timestamp |
| LeadPipeline.DedupeReadsTargetTimestamp | scripts/append_and_notify.py:249-259 | an existing timestamp, when read, is the timestamp cell of the row the upsert will update |
| LeadPipeline.FinalSettles | scripts/append_and_notify.py:304-320 | on the row holding a non-blank timestamp `v`, when the chosen timestamp is `v`, the final upsert leaves both timestamp and `updated_at` equal to `v` |
| LeadPipeline.NoWamidFails | scripts/append_and_notify.py:264-281 | a valid lead without a wamid fails the provisional upsert: `sheets_upsert_failed`, sheet unchanged, no notification |
| SheetsRepo.WamidColumnIsHeader | scripts/sheets_repo.py:12-20 | HEADERS has 7 entries, and `wamid` is position 7 (column G) and no other |
| SheetsRepo.NeedsUpdateIff | scripts/sheets_repo.py:85-88 | a rewrite is needed exactly when row 1 does not start with HEADERS, compared trimmed and lower-cased |
| SheetsRepo.ExtraCellsIgnored | scripts/sheets_repo.py:85-88 | trailing header cells beyond the seventh never trigger a rewrite |
| SheetsRepo.EmptyNeedsUpdate | scripts/sheets_repo.py:80-88 | an empty row 1, which is also what a failed read gives, needs a rewrite |
| SheetsRepo.RewriteMatches | scripts/sheets_repo.py:90-91 | after the rewrite, row 1 matches HEADERS |
| SheetsRepo.EnsureHeadersEffect | scripts/sheets_repo.py:75-91 | afterwards row 1 matches HEADERS; data rows and header cells past column G are unchanged; a matching row 1 read successfully is left alone; a failed read forces the rewrite |
| SheetsRepo.EnsureHeaders | scripts/sheets_repo.py:75-91 | the method's sheet afterwards is that of the model |
| SheetsRepo.FindWamid | scripts/sheets_repo.py:114-130 | the result is true exactly when the key is non-empty and some data row's trimmed column-G cell equals it |
| SheetsRepo.HeaderNotSearched | scripts/sheets_repo.py:127 | the header row is never searched |
| RangeCsv.ColumnLetters | scripts/read_range_to_csv.py:15-23 | the inverse numbering gives upper-case letters, non-empty exactly for n ≥ 1 |
| RangeCsv.LetterIndex | scripts/read_range_to_csv.py:15-23 | a column number exists exactly when the trimmed input is non-empty and all letters (otherwise ValueError), and it is at least 1 |
| RangeCsv.NumberOfLetters | scripts/read_range_to_csv.py:20-23 | bijective base 26: letters of n read back as n |
| RangeCsv.LettersOfNumber | scripts/read_range_to_csv.py:20-23 | and every upper-case word is the letters of its own number |
| RangeCsv.ColumnExamples | scripts/read_range_to_csv.py:16 | A is 1, Z is 26, AA is 27 |
| RangeCsv.LetterIndexIgnoresCase | scripts/read_range_to_csv.py:17 | inputs equal up to case give the same result |
| RangeCsv.LowerSameColumn | scripts/read_range_to_csv.py:17 | lower-case letters name the same column |
| RangeCsv.LetterIndexOfLetters | scripts/read_range_to_csv.py:15-23 | the letters of column n convert to n |
| RangeCsv.ColLetterToIndex | scripts/read_range_to_csv.py:15-23 | the accumulator loop computes the column number, or raises exactly when the model does |
| RangeCsv.LexUnlex | scripts/read_range_to_csv.py:37-55 | splitting the range text into letter runs, digit runs, colons and other characters loses nothing |
| RangeCsv.ParseA1 | scripts/read_range_to_csv.py:26-58 | row bounds come both or neither, column bounds come both or neither, and column numbers are at least 1 |
| RangeCsv.ParseCellRange | scripts/read_range_to_csv.py:37-40 | `A2:G20` and every other letters-digits:letters-digits text parses to (r1, r2, c1, c2) |
| RangeCsv.ParseColumnRange | scripts/read_range_to_csv.py:42-45 | `A:G` parses to (None, None, 1, 7), as does every letters:letters text to its column numbers |
| RangeCsv.ParseRowRange | scripts/read_range_to_csv.py:47-50 | `2:100` parses to (2, 100, None, None), as does every digits:digits text |
| RangeCsv.ParseSingleCell | scripts/read_range_to_csv.py:52-55 | `A1` parses to (1, 1, 1, 1), as does every single cell to its row and column twice |
| RangeCsv.UnrecognisedCharacter | scripts/read_range_to_csv.py:57-58 | any character other than a letter, a digit or a colon, once spaces are removed, gives all None |
| RangeCsv.SpacesIgnored | scripts/read_range_to_csv.py:35 | a space anywhere does not change the result |
| RangeCsv.SliceHeaders | scripts/read_range_to_csv.py:61-69 | `[]` for an empty header row, all headers when either bound is None, else headers from index col_start − 1 up to max(col_start − 1, col_end), clipped to the row |
| RangeCsv.ShowAll | scripts/read_range_to_csv.py:73 | each value is shown as text, None as `""` |
| RangeCsv.NormalizeRowLen | scripts/read_range_to_csv.py:72-78 | exactly `size` strings: the row's prefix shown as text, padded with `""` |
| RangeCsv.NumberedInjective | scripts/read_range_to_csv.py:98 | distinct suffix numbers give distinct candidate paths |
| RangeCsv.NumberedCount | scripts/read_range_to_csv.py:96-101 | the first n candidates are n different paths, which bounds the loop by the number of existing files |
| RangeCsv.UniquePath | scripts/read_range_to_csv.py:90-101 | the result does not exist; it is p itself when p does not exist, and otherwise `stem_i` + suffix for the smallest i ≥ 1 whose candidate does not exist |
| SendEmail.UniqKeys | scripts/send_email.py:46-53 | the deduped list covers the same addresses ignoring case |
| SendEmail.UniqDistinct | scripts/send_email.py:46-53 | no two results are equal ignoring case |
| SendEmail.UniqPositions | scripts/send_email.py:46-53 | each result is the first occurrence of its address, and results come in input order |
| SendEmail.UniqSubset | scripts/send_email.py:46-53 | every result comes from the input |
| SendEmail.UniqOfDistinct | scripts/send_email.py:46-53 | a list with no case-duplicates is returned unchanged |
| SendEmail.DedupeIgnoringCase | scripts/send_email.py:47-53 | the loop with its `seen` set computes the dedupe |
| SendEmail.RecipientsFromEnvAndRecord | scripts/send_email.py:37-53 | the function returns the dedupe of the EMAIL_TO pieces followed by the lead's address |
| SendEmail.CandidatesShape | scripts/send_email.py:39-44 | every candidate is non-empty and trimmed, and is an EMAIL_TO piece or the lead's trimmed address containing `@` |
| SendEmail.RecipientsFacts | scripts/send_email.py:37-53 | every recipient is non-empty, trimmed, from EMAIL_TO or the usable lead address; a usable lead address is always among the recipients, ignoring case; otherwise the list is the dedupe of EMAIL_TO alone |
| SendEmail.RemoveBasicTags | scripts/send_email.py:111-112 | the loop removes each listed basic tag in turn |
| SendEmail.SkipTags | scripts/send_email.py:114-122 | the character loop with its `skip` flag keeps exactly the visible characters |
| SendEmail.StripHtml | scripts/send_email.py:107-122 | the method computes breaks, then basic tags, then the skip loop, then trims |
| SendEmail.StripHtmlNoBrackets | scripts/send_email.py:114-122 | the output never contains `<` or `>` |
| SendEmail.VisibleDropsSpan | scripts/send_email.py:114-122 | everything inside a `<...>` span is removed, and the text around it is kept |
| SendEmail.UnclosedTagDropsRest | scripts/send_email.py:114-122 | an unclosed `<` drops the rest of the text |
| SendEmail.BreakBecomesNewline | scripts/send_email.py:110 | `<br>`, `<br/>` and `<br />` become a newline before other tags are removed |
| SendEmail.StripPlain | scripts/send_email.py:107-122 | text without brackets is only trimmed |
| SendEmail.FromAddressNamed | scripts/send_email.py:79-81 | for `Name <addr>` the sender address is exactly the text between the brackets |
| SendEmail.FromHeaderRoundTrip | scripts/send_email.py:79-84 | a bare address is used as itself |
| SendEmail.FromAddressReversed | scripts/send_email.py:81 | when `>` comes before `<` the slice is empty |
| SendEmail.SmtpGates | scripts/send_email.py:58-91 | disabled returns true without sending; enabled with no recipients returns false; dry-run returns true without sending |
| SendEmail.SmtpAttempt | scripts/send_email.py:66-104 | a send is attempted exactly when enabled, with recipients, a valid port and not dry-run; it goes to the given list from the parsed sender, and the result is whether it was delivered |
| SendEmail.SmtpSend | scripts/send_email.py:56-104 | the method's run and return value are those of the model |
| SendEmail.LeadAddressReceives | scripts/send_email.py:128-154 | a usable lead address means there is always a recipient, and any send includes that address |
| SendEmail.LegacyRecipientsFacts | scripts/send_email.py:162-164 | a given `to_email` yields exactly its trimmed self (even `""`); otherwise the non-empty, trimmed EMAIL_TO pieces |
| Mailer.TruthyIgnoresCase | scripts/mailer.py:39-40 | truthiness does not depend on case |
| Mailer.FirstNonemptyEmptyIff | scripts/mailer.py:43-47 | the result is `""` exactly when every argument is blank |
| Mailer.FirstNonemptyIndex | scripts/mailer.py:43-47 | a non-empty result is the trimmed first non-blank argument |
| Mailer.FirstNonempty | scripts/mailer.py:43-47 | the loop with its early return computes the model |
| Mailer.UnsetMeansDisabled | scripts/mailer.py:80 | an unset EMAIL_ENABLED disables sending |
| Mailer.IssueLabels | scripts/mailer.py:100 | the three missing-field messages are `faltando SMTP_HOST`, `SMTP_PORT` and `SMTP_FROM` |
| Mailer.ValidateSmtpCfg | scripts/mailer.py:94-106 | the loop and check produce the issue list, and ok holds exactly when it is empty |
| Mailer.MissingIssuesOfRequired | scripts/mailer.py:97-100 | one issue per missing host, port, from address, in that order |
| Mailer.IssuesValid | scripts/mailer.py:94-106 | no issues exactly when host, port and from are set and user and password are both set or both empty; at most four issues |
| Mailer.IssuesMembers | scripts/mailer.py:98-104 | a message is in the issue list exactly when it is one of the four labels and its condition holds |
| Mailer.IssuesNamed | scripts/mailer.py:98-104 | each issue message is present exactly when its condition holds |
| Mailer.Recipients | scripts/mailer.py:148-153 | the `+=` steps compute the recipient list |
| Mailer.RecipientListShape | scripts/mailer.py:148-153 | the list is to_addr followed by one entry per comma piece of cc and bcc that is non-empty, each trimmed |
| Mailer.PiecesShape | scripts/mailer.py:151-153 | each cc or bcc piece is a non-empty, trimmed, comma-free address |
| Mailer.RecipientsOfJoined | scripts/mailer.py:148-153 | cc and bcc lists joined by commas come back exactly |
| Mailer.SendEmail | scripts/mailer.py:109-193 | the method returns the model's result |
| Mailer.BadNumberRaises | scripts/mailer.py:78-91 | a non-numeric SMTP_PORT or SMTP_TIMEOUT raises before any check |
| Mailer.DisabledFirst | scripts/mailer.py:123-126 | disabled returns `disabled` whatever the other arguments |
| Mailer.NoRecipientSkips | scripts/mailer.py:128-131 | no usable recipient returns skip/no_to |
| Mailer.DryRunSkipsValidation | scripts/mailer.py:155-164 | dry-run returns `dry-run` without validation, whatever the connection would do |
| Mailer.InvalidStopsBeforeConnect | scripts/mailer.py:166-170 | an invalid config returns error/invalid_config with the issues, before any connection |
| Mailer.SentFacts | scripts/mailer.py:172-189 | `sent` only when enabled, valid and delivered, to to_addr followed by the cc and bcc pieces |
| ReadByWamid.Fit | scripts/read_by_wamid.py:24-28 | the row is padded with `""` or truncated to exactly the header length, keeping its cells in place |
| ReadByWamid.ZipTrimmed | scripts/read_by_wamid.py:30 | `zip` pairs position i of both lists, as long as the shorter, with the header trimmed |
| ReadByWamid.RowDict | scripts/read_by_wamid.py:16-30 | the method's in-place padding or truncation gives the model's dict |
| ReadByWamid.RowDictKeys | scripts/read_by_wamid.py:30 | the keys are exactly the trimmed headers |
| ReadByWamid.RowDictValue | scripts/read_by_wamid.py:24-30 | header i maps to cell i (`""` past the row's end) unless a later duplicate header overwrites it |
| ReadByWamid.ExtraCellsDropped | scripts/read_by_wamid.py:27-28 | cells past the header length never reach the dict |
| ReadByWamid.MissingRowIsBlank | scripts/read_by_wamid.py:25-26 | a row that is missing reads as all `""` |
| ReadByWamid.MainExits | scripts/read_by_wamid.py:59-88 | a blank wamid exits 2 whatever the store; no row exits 1; a row is shown exactly when the wamid is non-blank, the store is ready and a row number is found, and that row is the one shown |
| ReadRange.NormalizeIgnoresSeparators | scripts/read_range.py:15-16 | digits survive and separators vanish |
| ReadRange.HitAt | scripts/read_range.py:54-57 | record i is a hit exactly when its normalised phone is non-empty and equals (exact) or contains the query |
| ReadRange.ListedPrefix | scripts/read_range.py:53-62 | matches among fewer records are a prefix of matches among more, so breaking early keeps a prefix |
| ReadRange.ListedIff | scripts/read_range.py:53-60 | a row number is listed exactly when its record is a hit; record i is row i + 2 |
| ReadRange.ListedBound | scripts/read_range.py:53-60 | rows are in strictly increasing sheet order, from 2 |
| ReadRange.AllMatchesIff | scripts/read_range.py:53-60 | row r is a match exactly when it is a data row whose record matches |
| ReadRange.AllMatchesBound | scripts/read_range.py:53-60 | all matches are increasing rows between 2 and the record count + 1 |
| ReadRange.EmptyQueryMatchesAll | scripts/read_range.py:55-57 | an empty partial query matches every record with a phone |
| ReadRange.ExactIsPartial | scripts/read_range.py:57 | an exact match is also a partial one |
| ReadRange.FlagAt | scripts/read_range.py:53-58 | the flag of element i is the loop's test applied to element i |
| ReadRange.Collect | scripts/read_range.py:53-62 | for any test, the first min(all, cap) passing rows in sheet order (a prefix of all of them, since the loop stops at the cap), each beside its own element, element i being row i + 2 |
| ReadRange.ListedExit | scripts/read_range.py:59-62 | leaving at the end of the records or once the cap is reached keeps exactly the first min(all, cap) listed rows |
| ReadRange.Search | scripts/read_range.py:47-62 | the first min(all, max(1, limit)) matching rows, in sheet order, with each match beside its own record |
| ReadRange.StatusTargets | scripts/read_range.py:69-73 | no more targets than matches, each non-empty and trimmed |
| ReadRange.StatusTargetsIff | scripts/read_range.py:70-73 | an id is targeted exactly when it is the non-blank trimmed wamid of some match |
| ReadRange.RebuildRows | scripts/read_range.py:79-89 | one rebuilt dict per row number, from the header row and that row padded or truncated |

## Left out

- Google Sheets authentication and opening (`_service_account`, `_open_ws`, `get_sheet`, `_open_spreadsheet`): the worksheet is given.
- gspread network failures: they are modelled only where the pipeline branches on them (lookup raises, provisional or final upsert fails). Partial writes that fail midway through the update loop are not modelled.
- SheetsWrite.InsertNew: the `-1` row number when `get_all_values` raises is not modelled, and neither is the same fallback in `append_by_header`; the row count is always readable.
- The `_call_upsert` fallback that retries without `preserve_timestamp` on a TypeError (scripts/append_and_notify.py:160-163): it catches any TypeError raised inside `upsert_by_wamid`, but the model's record values are strings or None and raise none, so the retry is not modelled.
- The `updates` counter and all logging: they affect nothing observable.
- Unicode: `strip`, `lower`, `upper` and `\d` are modelled on ASCII (space, tab, newline, vertical tab, form feed, carriage return and the separators 0x1C to 0x1F; A–Z; 0–9). Non-ASCII white space such as U+00A0 and U+0085 is not stripped.
- Cell values are strings; gspread's conversion of numbers and the `str(x)` of other types are not modelled.
- The request id (`uuid4`) and `_now_local_str`: the clock readings are parameters, and the id is not in the model's response.
- The e-mail regex of `_extract_from_webhook`: it is a parameter; only its lower-casing and the None for no match are modelled.
- Non-integer JSON numbers: payload numbers are integers (`Json.JNum`), with their truthiness and the raising paths of `.strip()` and `re.sub` on them; floats are not modelled.
- A whitespace-only stored timestamp counts as present and is preserved, because the source tests `if current_ts`; the model does the same.
- The pipeline composition is proved step by step. The end-to-end statement over every lead is given as the pieces `LeadSpecFinishes`, `FinishNotifies` and `FinalSettles`, not as one lemma.
- LeadPipeline.FinalSettles: it needs the pipeline's column aliases (`COL_*` read as given) to equal the writer's lower-cased names (the `Aligned` condition); that the defaults satisfy this is not proved.
- SheetsRepo.FindWamid: the RuntimeError when reading column G fails is not modelled.
- The `main` of `read_range_to_csv.py`: CSV writing, delimiter and encoding options, and the header de-duplication at lines 160-167. The `_default_outfile` clock-based name is also left out; a path is a (parent, stem, suffix) triple.
- `send_lead_email` subject formatting, the HTML body template and MIME construction: the message body is not modelled.
- `formataddr` quoting of the sender as `Leads Bot <addr>`: the header is taken as written.
- The SMTP session (`starttls`, `login`, `sendmail`, SSL): it is reduced to a `delivered` flag; its exceptions return false or `error`.
- `int()` on strings with underscores or non-ASCII digits: `Text.ParseInt` accepts surrounding white space, an optional sign and ASCII digits only.
- `_plaintext_from_html` in `scripts/mailer.py` (regex based) and the message body of `send_email`.
- `update_status_email` in `scripts/read_by_wamid.py` and `scripts/read_range.py`, and its warnings: its effect on the sheet is not modelled. `get_repo` and `find_row_by_wamid` of the repository class are not part of this model; the row number found is a parameter.
- `get_all_records` in `scripts/read_range.py`: the records are given as a list of dicts of strings. gspread's default conversion of numeric cells is not modelled. By gspread's documented behaviour, a digits-only phone cell comes back as an `int`, `_normalize_digits` (scripts/read_range.py:16, 54) then raises TypeError and the tool exits with 2 (lines 109-111). The model, with string records, reports the matches instead. This reading of gspread was not executed.
- Printing, argparse and JSON output of the command-line tools, and the empty-sheet and no-match messages of `scripts/read_range.py`.
- Flask routing, webhook verification and the WhatsApp reply client: not part of the core.

- SheetsWrite.FindRowByKey, SheetsWrite.ScanKeyColumn, SheetsWrite.ScanExact, SheetsWrite.Upsert, SheetsWrite.UpsertCore, SheetsWrite.UpsertNew, SheetsWrite.UpsertFound, SheetsWrite.InsertNew, LeadPipeline.FindWamidRow, LeadPipeline.DedupeStep, LeadPipeline.DedupeCore, LeadPipeline.ProcessIncoming, LeadPipeline.HandleLead, LeadPipeline.Provisional: these use the corrected lookups (first "Findings" rows). As written (sheets_write.py:148-151, 272-282), a record with wamid `wamid` on a sheet whose key column header is `wamid` takes the update path on row 1 and overwrites header cells, and the pipeline (scripts/append_and_notify.py:147-150, 250, 284) reports it as a duplicate with status `dedupe` and no e-mail. The model inserts a row, answers `ok` and calls the notifier instead.
- Sheet.Worksheet.CountRows: counts every stored row. gspread's `get_all_values` (sheets_write.py:244-245) leaves out trailing empty rows, so after an all-blank row at the bottom the source's fallback row number is smaller than the model's.
- Sheet.Worksheet.RowValues: returns the stored row. gspread's `row_values` (sheets_write.py:115, scripts/read_by_wamid.py:21-22, scripts/read_range.py:82-83) leaves out trailing empty cells. For cells `[["wamid", ""], ["m1", "x"]]`, `_row_dict(ws, 2)` sees headers `["wamid"]` and returns `{"wamid": "m1"}`, while `ReadByWamid.RowDict` and `ReadRange.RebuildRows` return `{"wamid": "m1", "": "x"}`. The insert row's width, `max(1, len(headers))`, also counts trailing blank header cells in the model. Header lookups are unaffected, since a blank header names no column.
- Sheet.Worksheet.ColValues: returns the whole stored column. gspread's `col_values` leaves out trailing empty cells; no lookup of a non-blank key can tell the difference.
- Sheet.Worksheet.AppendRow, SheetsWrite.InsertNew, SheetsWrite.UpsertInserts, SheetsWrite.AppendByHeader, LeadPipeline.ProvisionalInserts: the model appends below every stored row, and the created row is `|cells| + 1`. The source appends with `table_range="A1"` (sheets_write.py:187, 236). By the Sheets API's documented table detection, the new row goes right after the table that starts at A1, so it fills the first all-blank row after row 1 when the sheet has one (a blank row between data rows, or a stored blank last row). The re-lookup then reports that row. This reading of the Sheets API was not executed.
- SheetsWrite.InsertNew: places the inserted row below every stored row, where the source's append fills the first blank row after the A1 table (line above).
- SheetsWrite.UpsertInserts: states the result `(row count + 1, created)` with the row at the bottom; in a sheet with an all-blank row after row 1, the source fills and reports that blank row instead (line above).
- SheetsWrite.AppendByHeader: reports `|cells|`, the row below every stored row; in a sheet with an all-blank row after row 1, the source's append fills that row (line above).
- LeadPipeline.ProvisionalInserts: gives the created row as `|cells| + 1`; in a sheet with an all-blank row after row 1, the source's provisional insert fills that row (line above).
- Sheet.Worksheet.AppendRow, Sheet.Worksheet.UpdateCell: store the given strings verbatim. The source writes with `USER_ENTERED` / `raw=False` (sheets_write.py:187, 236, 281), so Sheets parses numbers, dates and formulas in the values; that parsing is not modelled.

## Findings

| source | as written | input that shows it | evidently intended | confidence | as-written member | corrected member |
|---|---|---|---|---|---|---|
| sheets_write.py:148-151 | the fast path accepts any `findall` hit in the key column, the header row included | a key equal to the key column's header name, e.g. key `wamid` with header `wamid`, returns row 1 | only data rows are returned, as the fallback (which skips row 1) does | not executed | SheetsWrite.FindRowAsWrittenHitsHeader | SheetsWrite.FindRowSound |
| scripts/append_and_notify.py:147-150 | the dedupe lookup accepts any `findall` hit in the key column, the header row included | wamid `wamid` with key column header `wamid` returns row 1, so the event is a duplicate of the header | only data rows count as duplicates | not executed | LeadPipeline.DedupeRowAsWrittenHitsHeader | LeadPipeline.DedupeRowSound |
| sheets_write.py:189-195 | `append_by_header` reports the first row holding the record's key after the append | sheet `[["wamid"], ["m1"]]`, append a record with wamid `m1`: row 3 is created and row 2 is reported | the created row is reported, as the docstring says | not executed | SheetsWrite.AppendAsWrittenReportsOlderRow | SheetsWrite.AppendByHeader |
