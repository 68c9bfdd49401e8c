/**
 * The lead pipeline of `scripts/append_and_notify.py`: the first message of a
 * WhatsApp webhook payload becomes a lead, which is de-duplicated by message
 * id, written to the sheet with a provisional e-mail status, announced by the
 * notifier, and written again with its final status and `updated_at`.
 *
 * The decoded JSON payload is a `Json` value. An expression that raises in
 * Python yields `None` in the extraction helpers. The sheet is a
 * `Sheet.Worksheet`; the notifier, the store's failures other than a missing
 * key, and the three clock readings are parameters.
 */
module LeadPipeline {

  import opened Wrappers
  import opened Text
  import opened Env
  import opened Records
  import opened Sheet
  import opened SheetsWrite

  // ---------------------------------------------------------------------------
  // _digits_only
  // ---------------------------------------------------------------------------

  /** `re.sub(r"\D+", "", s)`: the digit characters of `s`. */
  function Digits(s: string): (r: string)
    ensures |r| <= |s| && AllDigits(r)
  {
    if s == [] then [] else (if IsDigit(s[0]) then [s[0]] else []) + Digits(s[1..])
  }

  /** `_digits_only(s)`, with None read as "". */
  function DigitsOnly(s: Option<string>): string {
    Digits(OrEmpty(s))
  }

  /** Digits are kept in order across a concatenation. */
  lemma {:induction false} DigitsAppend(a: string, b: string)
    ensures Digits(a + b) == Digits(a) + Digits(b)
  {
    if a == [] {
      assert a + b == b;
    } else {
      var h := if IsDigit(a[0]) then [a[0]] else [];
      assert (a + b)[0] == a[0];
      assert (a + b)[1..] == a[1..] + b;
      DigitsAppend(a[1..], b);
      assert Digits(a + b) == h + (Digits(a[1..]) + Digits(b));
      assert h + (Digits(a[1..]) + Digits(b)) == (h + Digits(a[1..])) + Digits(b);
    }
  }

  /** A single character is kept exactly when it is a digit. */
  lemma DigitsChar(c: char)
    ensures Digits([c]) == if IsDigit(c) then [c] else []
  {
    assert [c][1..] == [];
  }

  /** A string of digits is its own result. */
  lemma {:induction false} DigitsOfDigits(s: string)
    requires AllDigits(s)
    ensures Digits(s) == s
  {
    if s != [] {
      DigitsOfDigits(s[1..]);
    }
  }

  // ---------------------------------------------------------------------------
  // The decoded payload
  // ---------------------------------------------------------------------------

  /** A decoded JSON value; numbers are integers. */
  datatype Json = JNull | JBool(b: bool) | JNum(n: int) | JStr(s: string) | JArr(items: seq<Json>) | JObj(fields: map<string, Json>)

  /** Python truthiness. */
  predicate Truthy(j: Json) {
    match j
    case JNull => false
    case JBool(b) => b
    case JNum(n) => n != 0
    case JStr(s) => s != ""
    case JArr(items) => items != []
    case JObj(fields) => fields != map[]
  }

  /** `a or b`. */
  function OrElse(a: Json, b: Json): Json {
    if Truthy(a) then a else b
  }

  /** `x[0]`: a list's or a string's first element; an empty one, a dict (no key 0) or a scalar raises. */
  function First(j: Json): Option<Json> {
    match j
    case JArr(items) => if items != [] then Some(items[0]) else None
    case JStr(s) => if s != "" then Some(JStr([s[0]])) else None
    case _ => None
  }

  /** `x.get(key, default)`, which only a dict has. */
  function GetKey(j: Json, key: string, default: Json): Option<Json> {
    match j
    case JObj(fields) => Some(if key in fields then fields[key] else default)
    case _ => None
  }

  /** `(x or "").strip()`: a truthy non-string has no `strip`. */
  function StrippedOrEmpty(j: Json): (r: Option<string>)
    ensures r.Some? ==> Trim(r.value) == r.value
  {
    if !Truthy(j) then Some("")
    else match j
      case JStr(s) => TrimIdempotent(s); Some(Trim(s))
      case _ => None
  }

  /** `_digits_only(x)`: `re.sub` refuses a truthy non-string. */
  function DigitsOf(j: Json): (r: Option<string>)
    ensures r.Some? ==> AllDigits(r.value)
  {
    if !Truthy(j) then Some("")
    else match j
      case JStr(s) => Some(Digits(s))
      case _ => None
  }

  /** `x or None` for a string. */
  function NonEmpty(s: string): (r: Option<string>)
    ensures r.Some? <==> s != ""
    ensures r.Some? ==> r.value == s
  {
    if s == "" then None else Some(s)
  }

  // ---------------------------------------------------------------------------
  // _extract_from_webhook
  // ---------------------------------------------------------------------------

  /** The extracted lead; every present string is non-empty. */
  datatype Lead = Lead(wamid: Option<string>, name: Option<string>, phone: Option<string>,
                       email: Option<string>, message: Option<string>, source: string)

  /** `[{}]`, the fallback list of the navigation. */
  function EmptyList(): Json {
    JArr([JObj(map[])])
  }

  /** `entry[0].changes[0].value`, with the fallbacks and the raising cases of the source. */
  function ValueOf(payload: Json): Option<Json> {
    var entries :- GetKey(payload, "entry", JNull);
    var entry :- First(OrElse(entries, EmptyList()));
    var changes :- GetKey(entry, "changes", EmptyList());
    var change :- First(changes);
    GetKey(change, "value", JObj(map[]))
  }

  /** The four strings the extraction reads: stripped id, digits of the sender, stripped name and stripped text. */
  datatype RawLead = RawLead(wamid: string, phone: string, name: string, text: string)

  /** The reads of `_extract_from_webhook`, in the source's order; None means one of them raised. */
  function ReadMessage(payload: Json): (r: Option<RawLead>)
    ensures r.Some? ==> Trim(r.value.wamid) == r.value.wamid && AllDigits(r.value.phone)
    ensures r.Some? ==> Trim(r.value.name) == r.value.name && Trim(r.value.text) == r.value.text
  {
    var value :- ValueOf(payload);
    var messages :- GetKey(value, "messages", JNull);
    var msg :- First(OrElse(messages, EmptyList()));
    var contacts :- GetKey(value, "contacts", JNull);
    var contact :- First(OrElse(contacts, EmptyList()));
    var id :- GetKey(msg, "id", JNull);
    var wamid :- StrippedOrEmpty(id);
    var from :- GetKey(msg, "from", JNull);
    var phone :- DigitsOf(from);
    var profile :- GetKey(contact, "profile", JNull);
    var nameJ :- GetKey(OrElse(profile, JObj(map[])), "name", JNull);
    var name :- StrippedOrEmpty(nameJ);
    var textObj :- GetKey(msg, "text", JNull);
    var body :- GetKey(OrElse(textObj, JObj(map[])), "body", JNull);
    var text :- StrippedOrEmpty(body);
    Some(RawLead(wamid, phone, name, text))
  }

  /** The returned dict: empty strings become None, the e-mail match is lower-cased. */
  function BuildLead(raw: RawLead, matchEmail: string -> Option<string>): Lead {
    var email := match matchEmail(raw.text) case Some(m) => NonEmpty(Lower(m)) case None => None;
    Lead(NonEmpty(raw.wamid), NonEmpty(raw.name), NonEmpty(raw.phone), email, NonEmpty(raw.text), "whatsapp")
  }

  /**
   * `_extract_from_webhook(payload)`; `matchEmail` stands for the e-mail regex
   * search over the trimmed text (the matched text, or None). None means the
   * extraction raised.
   */
  function Extract(payload: Json, matchEmail: string -> Option<string>): Option<Lead> {
    var raw :- ReadMessage(payload);
    Some(BuildLead(raw, matchEmail))
  }

  /** Every present field is a non-empty string; ids, names and text are trimmed, the phone is digits, the e-mail lower-case, the source "whatsapp". */
  predicate WellFormedLead(lead: Lead) {
    (lead.wamid.Some? ==> lead.wamid.value != "" && Trim(lead.wamid.value) == lead.wamid.value) &&
    (lead.name.Some? ==> lead.name.value != "" && Trim(lead.name.value) == lead.name.value) &&
    (lead.phone.Some? ==> lead.phone.value != "" && AllDigits(lead.phone.value)) &&
    (lead.email.Some? ==> lead.email.value != "" && Lower(lead.email.value) == lead.email.value) &&
    (lead.message.Some? ==> lead.message.value != "" && Trim(lead.message.value) == lead.message.value) &&
    lead.source == "whatsapp"
  }

  /**
   * An extracted lead is well formed, and its e-mail is the lower-cased match
   * of the search over the text, None when the search finds nothing.
   */
  lemma ExtractWellFormed(payload: Json, matchEmail: string -> Option<string>)
    requires Extract(payload, matchEmail).Some?
    ensures WellFormedLead(Extract(payload, matchEmail).value)
    ensures var text := ReadMessage(payload).value.text;
      Extract(payload, matchEmail).value.email ==
        match matchEmail(text) case Some(m) => (if m == "" then None else Some(Lower(m))) case None => None
  {
    var raw := ReadMessage(payload).value;
    match matchEmail(raw.text) {
      case Some(m) => LowerIdempotent(m);
      case None =>
    }
  }

  /** A payload without the nested fields gives a lead with nothing but its source. */
  lemma ExtractEmpty(matchEmail: string -> Option<string>)
    requires matchEmail("").None?
    ensures Extract(JObj(map[]), matchEmail) == Some(Lead(None, None, None, None, None, "whatsapp"))
  {
    assert ValueOf(JObj(map[])) == Some(JObj(map[]));
    assert ReadMessage(JObj(map[])) == Some(RawLead("", "", "", ""));
  }

  /** A present but empty `changes` list is not defaulted: indexing it raises. */
  lemma ExtractRaisesOnEmptyChanges(matchEmail: string -> Option<string>)
    ensures Extract(JObj(map["entry" := JArr([JObj(map["changes" := JArr([])])])]), matchEmail).None?
  {
    assert ValueOf(JObj(map["entry" := JArr([JObj(map["changes" := JArr([])])])])).None?;
  }

  // ---------------------------------------------------------------------------
  // The pipeline's `_find_row_by_wamid`
  // ---------------------------------------------------------------------------

  /**
   * The pipeline's lookup: the first data row whose cell in the key column is
   * exactly `wamid` (1-based), None for an empty id or a missing column.
   */
  function DedupeRow(cells: Grid, keyCol: string, wamid: string): (r: Option<nat>)
    ensures r.Some? ==> 2 <= r.value <= |cells|
  {
    if wamid == "" then None
    else
      match KeyColumn(cells, keyCol)
      case None => None
      case Some(c) =>
        match FirstMatch(Column(cells, c), wamid, true, 1)
        case Some(i) => Some(i + 1)
        case None => None
  }

  /** The lookup as written: `findall` visits the sheet from row 1, header included. */
  function DedupeRowAsWritten(cells: Grid, keyCol: string, wamid: string): Option<nat> {
    if wamid == "" then None
    else
      match KeyColumn(cells, keyCol)
      case None => None
      case Some(c) =>
        match FirstMatch(Column(cells, c), wamid, true, 0)
        case Some(i) => Some(i + 1)
        case None => None
  }

  /** `_find_row_by_wamid(ws, wamid)` of the pipeline, with the configured key column `keyCol`. */
  method FindWamidRow(ws: Worksheet, keyCol: string, wamid: string) returns (r: Option<nat>)
    ensures r == DedupeRow(ws.cells, keyCol, wamid)
  {
    if wamid == "" {
      return None;
    }
    var c := KeyColumnOf(ws, keyCol);
    if c.None? {
      return None;
    }
    var col := ws.ColValues(c.value);
    var i := ScanExact(col, wamid);
    r := if i.Some? then Some(i.value + 1) else None;
  }

  /**
   * A returned row holds `wamid` exactly in the key column and no data row
   * above it does; None means no data row does (or the id or column is missing).
   */
  lemma DedupeRowSound(cells: Grid, keyCol: string, wamid: string)
    ensures DedupeRow(cells, keyCol, wamid).Some? ==>
      KeyColumn(cells, keyCol).Some? &&
      var r := DedupeRow(cells, keyCol, wamid).value;
      var c := KeyColumn(cells, keyCol).value;
      Cell(cells, r, c) == wamid && forall q :: 2 <= q < r ==> Cell(cells, q, c) != wamid
    ensures DedupeRow(cells, keyCol, wamid).None? <==>
      wamid == "" || KeyColumn(cells, keyCol).None? ||
      forall q :: 2 <= q <= |cells| ==> Cell(cells, q, KeyColumn(cells, keyCol).value) != wamid
  {
    if wamid != "" && KeyColumn(cells, keyCol).Some? {
      var c := KeyColumn(cells, keyCol).value;
      var col := Column(cells, c);
      var m := FirstMatch(col, wamid, true, 1);
      FirstMatchSpec(col, wamid, true, 1);
      if m.Some? {
        ColumnAt(cells, c, m.value);
        forall q | 2 <= q < m.value + 1 ensures Cell(cells, q, c) != wamid {
          ColumnAt(cells, c, q - 1);
          assert !KeyMatch(col[q - 1], wamid, true);
        }
      } else {
        forall q | 2 <= q <= |cells| ensures Cell(cells, q, c) != wamid {
          ColumnAt(cells, c, q - 1);
          assert !KeyMatch(col[q - 1], wamid, true);
        }
      }
    }
  }

  /** For a trimmed id, a row the pipeline finds is the row the upsert will update. */
  lemma DedupeRowIsUpsertRow(cells: Grid, keyCol: string, wamid: string)
    requires Trim(wamid) == wamid && DedupeRow(cells, keyCol, wamid).Some?
    ensures FindRow(cells, keyCol, wamid) == DedupeRow(cells, keyCol, wamid)
  {
  }

  /** The two lookups agree unless the header cell of the key column is the id itself. */
  lemma DedupeRowAsWrittenAgrees(cells: Grid, keyCol: string, wamid: string)
    requires KeyColumn(cells, keyCol).Some? ==> Cell(cells, 1, KeyColumn(cells, keyCol).value) != wamid
    ensures DedupeRowAsWritten(cells, keyCol, wamid) == DedupeRow(cells, keyCol, wamid)
  {
    if wamid != "" && KeyColumn(cells, keyCol).Some? {
      var col := Column(cells, KeyColumn(cells, keyCol).value);
      if |col| > 0 {
        ColumnAt(cells, KeyColumn(cells, keyCol).value, 0);
        assert !KeyMatch(col[0], wamid, true);
        assert FirstMatch(col, wamid, true, 0) == FirstMatch(col, wamid, true, 1);
      }
    }
  }

  /** A message whose id is the header text "wamid" is taken as a duplicate of row 1 as written. */
  lemma DedupeRowAsWrittenHitsHeader()
    ensures DedupeRowAsWritten([["wamid"]], "wamid", "wamid") == Some(1)
    ensures DedupeRow([["wamid"]], "wamid", "wamid") == None
  {
    NormOfPlain("wamid");
    assert HeaderPos(["wamid"], "wamid") == 0;
    assert Column([["wamid"]], 1) == ["wamid"];
  }

  // ---------------------------------------------------------------------------
  // process_incoming
  // ---------------------------------------------------------------------------

  /** The pipeline's column aliases, `_env(COL_..., default)`: trimmed, case kept. */
  datatype PipeNames = PipeNames(
    ts: string, nm: string, ph: string, em: string, msg: string,
    src: string, wid: string, se: string, upd: string)

  function PipeNamesOf(env: Environment): PipeNames {
    PipeNames(
      EnvValue(env, "COL_TIMESTAMP", "timestamp"),
      EnvValue(env, "COL_NAME", "name"),
      EnvValue(env, "COL_PHONE", "phone"),
      EnvValue(env, "COL_EMAIL", "email"),
      EnvValue(env, "COL_MESSAGE", "message"),
      EnvValue(env, "COL_SOURCE", "source"),
      EnvValue(env, "COL_WAMID", "wamid"),
      EnvValue(env, "COL_STATUS_EMAIL", "status_email"),
      EnvValue(env, "COL_UPDATED_AT", "updated_at"))
  }

  /** How the best-effort dedupe block can fail. */
  datatype DedupeFault =
    | NoFault
    | LookupFails          // opening the sheet or the lookup raised: nothing is recorded
    | TimestampReadFails   // the row was found, then reading its timestamp raised

  /** The block's locals afterwards: `is_dup`, `row_idx`, `existing_ts`. */
  datatype Dedupe = Dedupe(isDup: bool, row: Option<nat>, existingTs: Option<string>)

  /** The dedupe block with its configuration read: the flag, the key and timestamp column names. */
  function DedupeWith(cells: Grid, enabled: bool, keyCol: string, tsCol: string, wamid: Option<string>,
                      fault: DedupeFault): Dedupe {
    if !(enabled && wamid.Some?) || fault == LookupFails then Dedupe(false, None, None)
    else
      match DedupeRow(cells, keyCol, wamid.value)
      case None => Dedupe(false, None, None)
      case Some(r) =>
        if fault == TimestampReadFails then Dedupe(true, Some(r), None)
        else
          match KeyColumn(cells, tsCol)
          case Some(c) => Dedupe(true, Some(r), Some(Cell(cells, r, c)))
          case None => Dedupe(true, Some(r), None)
  }

  /** The dedupe block: runs only with the flag on (default 1) and an id present. */
  function DedupeSpec(cells: Grid, env: Environment, lead: Lead, fault: DedupeFault): Dedupe {
    DedupeWith(cells, Flag(env, "DEDUPE_BY_WAMID", 1), Colnames(env).wamid, Norm(PipeNamesOf(env).ts), lead.wamid, fault)
  }

  /** The dedupe block over the sheet; it reads and never writes. */
  method DedupeStep(ws: Worksheet, env: Environment, lead: Lead, fault: DedupeFault) returns (d: Dedupe)
    ensures d == DedupeSpec(ws.cells, env, lead, fault)
  {
    d := DedupeCore(ws, Flag(env, "DEDUPE_BY_WAMID", 1), Colnames(env).wamid, Norm(PipeNamesOf(env).ts), lead.wamid, fault);
  }

  method DedupeCore(ws: Worksheet, enabled: bool, keyCol: string, tsCol: string, wamid: Option<string>,
                    fault: DedupeFault) returns (d: Dedupe)
    ensures d == DedupeWith(ws.cells, enabled, keyCol, tsCol, wamid, fault)
  {
    d := Dedupe(false, None, None);
    if !(enabled && wamid.Some?) || fault == LookupFails {
      return;
    }
    var row := FindWamidRow(ws, keyCol, wamid.value);
    if row.None? {
      return;
    }
    d := Dedupe(true, row, None);
    if fault == TimestampReadFails {
      return;
    }
    var tc := KeyColumnOf(ws, tsCol);
    if tc.Some? {
      var v := ws.CellValue(row.value, tc.value);
      d := Dedupe(true, row, Some(v));
    }
  }

  /**
   * The duplicate flag is set exactly when the block runs without a lookup
   * failure and the lookup finds a row; the row number is kept exactly then,
   * and a stored timestamp is read only for a duplicate without a fault.
   */
  lemma DedupeIff(cells: Grid, enabled: bool, keyCol: string, tsCol: string, wamid: Option<string>, fault: DedupeFault)
    ensures var d := DedupeWith(cells, enabled, keyCol, tsCol, wamid, fault);
      (d.isDup <==> enabled && wamid.Some? && fault != LookupFails && DedupeRow(cells, keyCol, wamid.value).Some?) &&
      (d.isDup <==> d.row.Some?) &&
      (d.isDup ==> d.row == DedupeRow(cells, keyCol, wamid.value)) &&
      (d.existingTs.Some? ==>
        (d.isDup && fault == NoFault && KeyColumn(cells, tsCol).Some? &&
         d.existingTs.value == Cell(cells, d.row.value, KeyColumn(cells, tsCol).value)))
  {
  }

  function SourceOf(lead: Lead): string {
    if lead.source != "" then lead.source else "whatsapp"
  }

  /** The pairs of the provisional record's dict display. */
  function BasePairs(p: PipeNames, lead: Lead, now: string, isDup: bool): seq<(string, Option<string>)> {
    [(p.ts, Some(now)), (p.nm, lead.name), (p.ph, lead.phone), (p.em, lead.email),
     (p.msg, lead.message), (p.src, Some(SourceOf(lead))), (p.wid, lead.wamid),
     (p.se, Some(if isDup then "skipped" else "pending"))]
  }

  /** The provisional record `base_record`. */
  function BaseRecord(p: PipeNames, lead: Lead, now: string, isDup: bool): Record {
    FromPairs(BasePairs(p, lead, now, isDup))
  }

  /** The notifier's answer: true, false, or an exception. */
  datatype NotifyOutcome = Delivered | NotDelivered | Raised

  /** `email_status` after step 4. */
  function EmailStatus(isDup: bool, notify: NotifyOutcome): string {
    if isDup then "skipped"
    else match notify
      case Delivered => "sent"
      case NotDelivered => "error"
      case Raised => "error"
  }

  /** Python's `a or b` on an optional string. */
  function OrStr(a: Option<string>, b: string): string {
    if a.Some? && a.value != "" then a.value else b
  }

  /** `ts_for_updated_at = existing_ts or base_record.get(COL_TS) or now_ts`. */
  function UpdatedAtFor(existingTs: Option<string>, base: Record, p: PipeNames, now: string): string {
    OrStr(existingTs, OrStr(Get(base, p.ts), now))
  }

  /** The pairs of the final record's dict display. */
  function FinalPairs(p: PipeNames, base: Record, status: string, now: string, tsFor: string): seq<(string, Option<string>)> {
    [(p.ts, Some(OrStr(Get(base, p.ts), now))), (p.nm, Get(base, p.nm)), (p.ph, Get(base, p.ph)),
     (p.em, Get(base, p.em)), (p.msg, Get(base, p.msg)), (p.src, Get(base, p.src)),
     (p.wid, Get(base, p.wid)), (p.se, Some(status)), (p.upd, Some(tsFor))]
  }

  /** The final record `merged_record`, built from the record the first upsert left behind. */
  function FinalRecord(p: PipeNames, base: Record, status: string, now: string, tsFor: string): Record {
    FromPairs(FinalPairs(p, base, status, now, tsFor))
  }

  /** The three clock readings: `now_ts` and the one each upsert takes for `updated_at`. */
  datatype Clock = Clock(now: string, provisional: string, final: string)

  /** Store failures other than a missing key: each makes the call raise before it reads or writes. */
  datatype Faults = Faults(dedupe: DedupeFault, provisionalFails: bool, finalFails: bool)

  /** The dict `process_incoming` returns (without the request id and the exception text). */
  datatype Response =
    | Failed(error: string)
    | Handled(status: string, wamid: Option<string>, row: Option<nat>, emailStatus: string,
              name: Option<string>, phone: Option<string>, email: Option<string>, source: string)

  /** The response, the sheet afterwards, and whether the notifier was called. */
  datatype Run = Run(response: Response, cells: Grid, notified: bool)

  predicate Invalid(lead: Lead) {
    lead.wamid.None? && lead.phone.None? && lead.name.None?
  }

  /** The final record for the dedupe outcome `d`, the notifier's answer and `now_ts`. */
  function FinalMerged(p: PipeNames, d: Dedupe, base: Record, notify: NotifyOutcome, now: string): Record {
    FinalRecord(p, base, EmailStatus(d.isDup, notify), now, UpdatedAtFor(d.existingTs, base, p, now))
  }

  /** The answer after a successful provisional upsert. */
  function FinishResponse(lead: Lead, d: Dedupe, notify: NotifyOutcome): Response {
    Handled(if d.isDup then "dedupe" else "ok", lead.wamid, d.row, EmailStatus(d.isDup, notify),
            lead.name, lead.phone, lead.email, SourceOf(lead))
  }

  /** Steps 4 to 6, after the provisional upsert left the sheet `cells` and the record `base`. */
  function FinishSpec(cells: Grid, env: Environment, lead: Lead, d: Dedupe, base: Record,
                      faults: Faults, clock: Clock, notify: NotifyOutcome): Run {
    var merged := FinalMerged(PipeNamesOf(env), d, base, notify, clock.now);
    Run(FinishResponse(lead, d, notify),
        if faults.finalFails then cells else UpsertSpec(cells, env, merged, true, clock.final).cells,
        !d.isDup)
  }

  /** Steps 3 to 6 once the dedupe block produced `d`. */
  function AfterDedupe(cells: Grid, env: Environment, lead: Lead, d: Dedupe, faults: Faults, clock: Clock, notify: NotifyOutcome): Run {
    var base := BaseRecord(PipeNamesOf(env), lead, clock.now, d.isDup);
    if faults.provisionalFails then Run(Failed("sheets_upsert_failed"), cells, false)
    else
      var s := UpsertSpec(cells, env, base, true, clock.provisional);
      if s.result.Failure? then Run(Failed("sheets_upsert_failed"), s.cells, false)
      else FinishSpec(s.cells, env, lead, d, s.record, faults, clock, notify)
  }

  /** `process_incoming` once the lead is extracted. */
  function LeadSpec(cells: Grid, env: Environment, lead: Lead, faults: Faults, clock: Clock, notify: NotifyOutcome): Run {
    if Invalid(lead) then Run(Failed("invalid_payload"), cells, false)
    else AfterDedupe(cells, env, lead, DedupeSpec(cells, env, lead, faults.dedupe), faults, clock, notify)
  }

  /** `process_incoming(payload)`. */
  function PipelineSpec(cells: Grid, env: Environment, payload: Json, matchEmail: string -> Option<string>,
                        faults: Faults, clock: Clock, notify: NotifyOutcome): Run {
    match Extract(payload, matchEmail)
    case None => Run(Failed("extract_failed"), cells, false)
    case Some(lead) => LeadSpec(cells, env, lead, faults, clock, notify)
  }

  /** `process_incoming(payload)` against the sheet `ws`. */
  method ProcessIncoming(ws: Worksheet, env: Environment, payload: Json, matchEmail: string -> Option<string>,
                         faults: Faults, clock: Clock, notify: NotifyOutcome)
    returns (response: Response, notified: bool)
    modifies ws
    ensures Run(response, ws.cells, notified) == PipelineSpec(old(ws.cells), env, payload, matchEmail, faults, clock, notify)
  {
    var lead := Extract(payload, matchEmail);
    if lead.None? {
      return Failed("extract_failed"), false;
    }
    response, notified := HandleLead(ws, env, lead.value, faults, clock, notify);
  }

  /** Steps 1 to 3: validation, dedupe and the provisional upsert. */
  method HandleLead(ws: Worksheet, env: Environment, lead: Lead, faults: Faults, clock: Clock, notify: NotifyOutcome)
    returns (response: Response, notified: bool)
    modifies ws
    ensures Run(response, ws.cells, notified) == LeadSpec(old(ws.cells), env, lead, faults, clock, notify)
  {
    if Invalid(lead) {
      return Failed("invalid_payload"), false;
    }
    var d := DedupeStep(ws, env, lead, faults.dedupe);
    response, notified := Provisional(ws, env, lead, d, faults, clock, notify);
  }

  /** Step 3, the provisional upsert, then steps 4 to 6 when it succeeded. */
  method Provisional(ws: Worksheet, env: Environment, lead: Lead, d: Dedupe, faults: Faults, clock: Clock, notify: NotifyOutcome)
    returns (response: Response, notified: bool)
    modifies ws
    ensures Run(response, ws.cells, notified) == AfterDedupe(old(ws.cells), env, lead, d, faults, clock, notify)
  {
    var base := BaseRecord(PipeNamesOf(env), lead, clock.now, d.isDup);
    var ok, base1 := StoreUpsert(ws, env, base, faults.provisionalFails, clock.provisional);
    if !ok {
      return Failed("sheets_upsert_failed"), false;
    }
    response, notified := Finish(ws, env, lead, d, base1, faults, clock, notify);
  }

  /** One `_call_upsert(record, preserve_timestamp=True)` that may raise before touching the sheet. */
  method StoreUpsert(ws: Worksheet, env: Environment, record: Record, fails: bool, now: string)
    returns (ok: bool, recordAfter: Record)
    modifies ws
    ensures var s := UpsertSpec(old(ws.cells), env, record, true, now);
      ok == (!fails && s.result.Success?) &&
      ws.cells == (if fails then old(ws.cells) else s.cells) &&
      (ok ==> recordAfter == s.record)
  {
    if fails {
      return false, record;
    }
    var res;
    res, recordAfter := Upsert(ws, env, record, true, now);
    ok := res.Success?;
  }

  /** Step 4: the notifier is skipped for a duplicate. */
  method NotifyStep(isDup: bool, notify: NotifyOutcome) returns (status: string, notified: bool)
    ensures status == EmailStatus(isDup, notify) && notified == !isDup
  {
    if isDup {
      return "skipped", false;
    }
    status := if notify == Delivered then "sent" else "error";
    notified := true;
  }

  /** Steps 4 to 6: the notifier (skipped for a duplicate), the final upsert, whose failure is ignored, and the answer. */
  method Finish(ws: Worksheet, env: Environment, lead: Lead, d: Dedupe, base: Record,
                faults: Faults, clock: Clock, notify: NotifyOutcome)
    returns (response: Response, notified: bool)
    modifies ws
    ensures Run(response, ws.cells, notified) == FinishSpec(old(ws.cells), env, lead, d, base, faults, clock, notify)
  {
    var status;
    status, notified := NotifyStep(d.isDup, notify);
    var p := PipeNamesOf(env);
    var tsFor := UpdatedAtFor(d.existingTs, base, p, clock.now);
    var merged := FinalRecord(p, base, status, clock.now, tsFor);
    assert merged == FinalMerged(p, d, base, notify, clock.now);
    var _, _ := StoreUpsert(ws, env, merged, faults.finalFails, clock.final);
    response := Handled(if d.isDup then "dedupe" else "ok", lead.wamid, d.row, status,
                        lead.name, lead.phone, lead.email, SourceOf(lead));
  }

  // ---------------------------------------------------------------------------
  // Properties of process_incoming
  // ---------------------------------------------------------------------------

  /** A payload that cannot be read answers `extract_failed` and touches nothing. */
  lemma ExtractFailureStops(cells: Grid, env: Environment, payload: Json, matchEmail: string -> Option<string>,
                            faults: Faults, clock: Clock, notify: NotifyOutcome)
    requires Extract(payload, matchEmail).None?
    ensures PipelineSpec(cells, env, payload, matchEmail, faults, clock, notify) == Run(Failed("extract_failed"), cells, false)
  {
  }

  /** A lead with no id, phone or name answers `invalid_payload`: the sheet is not read or written, nobody is notified. */
  lemma InvalidLeadStops(cells: Grid, env: Environment, lead: Lead, faults: Faults, clock: Clock, notify: NotifyOutcome)
    requires Invalid(lead)
    ensures LeadSpec(cells, env, lead, faults, clock, notify) == Run(Failed("invalid_payload"), cells, false)
  {
  }

  /** Once the provisional upsert succeeded, the run is steps 4 to 6 on the sheet and record it left. */
  lemma LeadSpecFinishes(cells: Grid, env: Environment, lead: Lead, faults: Faults, clock: Clock, notify: NotifyOutcome)
    requires !Invalid(lead) && !faults.provisionalFails
    requires var d := DedupeSpec(cells, env, lead, faults.dedupe);
      UpsertSpec(cells, env, BaseRecord(PipeNamesOf(env), lead, clock.now, d.isDup), true, clock.provisional).result.Success?
    ensures var d := DedupeSpec(cells, env, lead, faults.dedupe);
      var s := UpsertSpec(cells, env, BaseRecord(PipeNamesOf(env), lead, clock.now, d.isDup), true, clock.provisional);
      LeadSpec(cells, env, lead, faults, clock, notify) == FinishSpec(s.cells, env, lead, d, s.record, faults, clock, notify)
  {
  }

  /** Only an invalid lead is answered `invalid_payload`. */
  lemma ValidLeadAccepted(cells: Grid, env: Environment, lead: Lead, faults: Faults, clock: Clock, notify: NotifyOutcome)
    requires !Invalid(lead)
    ensures LeadSpec(cells, env, lead, faults, clock, notify).response != Failed("invalid_payload")
  {
    var d := DedupeSpec(cells, env, lead, faults.dedupe);
    var base := BaseRecord(PipeNamesOf(env), lead, clock.now, d.isDup);
    if !faults.provisionalFails && UpsertSpec(cells, env, base, true, clock.provisional).result.Success? {
      LeadSpecFinishes(cells, env, lead, faults, clock, notify);
    }
  }

  /** The empty payload `{}` is read without error and rejected as `invalid_payload`. */
  lemma EmptyPayloadInvalid(cells: Grid, env: Environment, matchEmail: string -> Option<string>,
                            faults: Faults, clock: Clock, notify: NotifyOutcome)
    requires matchEmail("").None?
    ensures PipelineSpec(cells, env, JObj(map[]), matchEmail, faults, clock, notify) == Run(Failed("invalid_payload"), cells, false)
  {
    ExtractEmpty(matchEmail);
  }

  /** The provisional status is "skipped" for a duplicate and "pending" for a new event, whatever the aliases. */
  lemma BaseRecordStatus(p: PipeNames, lead: Lead, now: string, isDup: bool)
    ensures Get(BaseRecord(p, lead, now, isDup), p.se) == Some(if isDup then "skipped" else "pending")
  {
    FromPairsGet(BasePairs(p, lead, now, isDup), p.se);
  }

  /** The final record's `updated_at` is `ts_for_updated_at`, whatever the aliases: its pair comes last. */
  lemma FinalRecordUpdatedAt(p: PipeNames, base: Record, status: string, now: string, tsFor: string)
    ensures Get(FinalRecord(p, base, status, now, tsFor), p.upd) == Some(tsFor)
  {
    FromPairsGet(FinalPairs(p, base, status, now, tsFor), p.upd);
  }

  /**
   * `ts_for_updated_at` is the timestamp read in the dedupe block when it is
   * non-empty, else the record's timestamp when non-empty, else `now_ts`.
   */
  lemma UpdatedAtForChoice(existingTs: Option<string>, base: Record, p: PipeNames, now: string)
    ensures existingTs.Some? && existingTs.value != "" ==> UpdatedAtFor(existingTs, base, p, now) == existingTs.value
    ensures (existingTs.None? || existingTs.value == "") ==>
      UpdatedAtFor(existingTs, base, p, now) == OrStr(Get(base, p.ts), now)
    ensures now != "" ==> UpdatedAtFor(existingTs, base, p, now) != ""
  {
  }

  /**
   * The provisional upsert gates the rest: when it raises or finds no key the
   * answer is `sheets_upsert_failed`, the notifier is not called, and the sheet
   * is as before; the notifier is only ever called after it succeeded.
   */
  lemma ProvisionalFailureStops(cells: Grid, env: Environment, lead: Lead, faults: Faults, clock: Clock, notify: NotifyOutcome)
    requires !Invalid(lead)
    ensures var d := DedupeSpec(cells, env, lead, faults.dedupe);
      var base := BaseRecord(PipeNamesOf(env), lead, clock.now, d.isDup);
      var run := LeadSpec(cells, env, lead, faults, clock, notify);
      (run.response == Failed("sheets_upsert_failed") <==>
         faults.provisionalFails || UpsertSpec(cells, env, base, true, clock.provisional).result.Failure?) &&
      (run.response.Failed? ==> run.cells == cells && !run.notified)
  {
    var d := DedupeSpec(cells, env, lead, faults.dedupe);
    var base := BaseRecord(PipeNamesOf(env), lead, clock.now, d.isDup);
    UpsertRequiresKey(cells, Colnames(env), Immutable(env), base, true, clock.provisional);
  }

  /**
   * Steps 4 to 6: a duplicate is never notified and ends "skipped"; otherwise
   * the notifier is called once, and its true gives "sent", its false or an
   * exception "error". The status is "dedupe" exactly for a duplicate, and
   * the row is the one the dedupe lookup found.
   */
  lemma NotifyOutcomes(lead: Lead, d: Dedupe, notify: NotifyOutcome)
    ensures var r := FinishResponse(lead, d, notify);
      r.Handled? &&
      (d.isDup ==> r.emailStatus == "skipped") &&
      (!d.isDup ==> (r.emailStatus == "sent" <==> notify == Delivered)) &&
      (!d.isDup && notify != Delivered ==> r.emailStatus == "error") &&
      (r.status == "dedupe" <==> d.isDup) &&
      (r.status == "ok" <==> !d.isDup) &&
      r.row == d.row && r.wamid == lead.wamid
  {
  }

  /** The notifier is called exactly for an event that is not a duplicate, and the answer is `FinishResponse`. */
  lemma FinishNotifies(cells: Grid, env: Environment, lead: Lead, d: Dedupe, base: Record,
                       faults: Faults, clock: Clock, notify: NotifyOutcome)
    ensures var run := FinishSpec(cells, env, lead, d, base, faults, clock, notify);
      (run.notified <==> !d.isDup) && run.response == FinishResponse(lead, d, notify)
  {
  }

  /** A failing final upsert leaves the sheet alone and changes neither the answer nor whether the notifier was called. */
  lemma FinalFailureIgnored(cells: Grid, env: Environment, lead: Lead, d: Dedupe, base: Record, df: DedupeFault, pf: bool,
                            clock: Clock, notify: NotifyOutcome)
    ensures var failing := FinishSpec(cells, env, lead, d, base, Faults(df, pf, true), clock, notify);
      var passing := FinishSpec(cells, env, lead, d, base, Faults(df, pf, false), clock, notify);
      failing.response == passing.response && failing.notified == passing.notified && failing.cells == cells
  {
  }

  // ---------------------------------------------------------------------------
  // The row's `updated_at` equals its timestamp
  // ---------------------------------------------------------------------------

  /** The aliases in the order the pipeline's records list them. */
  function Names(p: PipeNames): seq<string> {
    [p.ts, p.nm, p.ph, p.em, p.msg, p.src, p.wid, p.se, p.upd]
  }

  /** No two aliases coincide. */
  predicate DistinctNames(p: PipeNames) {
    forall a, b :: 0 <= a < b < 9 ==> Names(p)[a] != Names(p)[b]
  }

  /** Every alias is trimmed and lower-case. */
  predicate NormalNames(p: PipeNames) {
    forall a :: 0 <= a < 9 ==> Norm(Names(p)[a]) == Names(p)[a]
  }

  /** The writer's column names that coincide with the aliases. */
  function ColsOf(p: PipeNames): ColNames {
    ColNames(p.ts, p.nm, p.ph, p.em, p.msg, p.src, p.wid, p.se, p.upd)
  }

  /**
   * The aliases are the writer's column names, no two coincide, and only the
   * id alias may be the literal "wamid".
   */
  predicate AlignedNames(p: PipeNames, c: ColNames) {
    c == ColsOf(p) && DistinctNames(p) && ("wamid" in Names(p) ==> p.wid == "wamid")
  }

  /** The configuration under which both upserts read the pipeline's records as the aliases mean them. */
  predicate Aligned(env: Environment) {
    AlignedNames(PipeNamesOf(env), Colnames(env))
  }

  /** Aligned aliases are in normal form, as the writer's names are. */
  lemma AlignedNormal(p: PipeNames, c: ColNames)
    requires AlignedNames(p, c) && Normalized(c)
    ensures NormalNames(p)
  {
    var ns := Names(p);
    assert ns == [c.timestamp, c.name, c.phone, c.email, c.message, c.source, c.wamid, c.statusEmail, c.updatedAt];
    forall a | 0 <= a < 9
      ensures Norm(ns[a]) == ns[a]
    {
      if a < 3 {
        assert a == 0 || a == 1 || a == 2;
      } else if a < 6 {
        assert a == 3 || a == 4 || a == 5;
      } else {
        assert a == 6 || a == 7 || a == 8;
      }
    }
  }

  /** A record displayed from pairs with normal-form keys is plain. */
  lemma {:induction false} FromPairsPlain(pairs: seq<(string, Option<string>)>)
    requires forall j :: 0 <= j < |pairs| ==> Norm(pairs[j].0) == pairs[j].0
    ensures PlainNames(FromPairs(pairs))
  {
    if pairs != [] {
      var pre := pairs[..|pairs| - 1];
      FromPairsPlain(pre);
      SetKeepsPlain(FromPairs(pre), pairs[|pairs| - 1].0, pairs[|pairs| - 1].1);
    }
  }

  /** Pairs keyed by a prefix of distinct normal names have distinct normal keys drawn from them. */
  lemma KeysFromNames(pairs: seq<(string, Option<string>)>, names: seq<string>)
    requires |pairs| <= |names| && forall a :: 0 <= a < |pairs| ==> pairs[a].0 == names[a]
    requires forall a, b :: 0 <= a < b < |names| ==> names[a] != names[b]
    requires forall a :: 0 <= a < |names| ==> Norm(names[a]) == names[a]
    ensures forall a, b :: 0 <= a < b < |pairs| ==> pairs[a].0 != pairs[b].0
    ensures forall j :: 0 <= j < |pairs| ==> Norm(pairs[j].0) == pairs[j].0 && pairs[j].0 in names
  {
  }

  /** Under aligned names the upserts take the key from the id alias. */
  lemma KeyFieldIsId(pairs: seq<(string, Option<string>)>, p: PipeNames, c: ColNames)
    requires AlignedNames(p, c)
    requires forall j :: 0 <= j < |pairs| ==> pairs[j].0 in Names(p)
    ensures KeyField(FromPairs(pairs), c) == c.wamid
  {
    FromPairsGet(pairs, "wamid");
    if "wamid" !in Names(p) {
      LastPairNone(pairs, "wamid");
    }
  }

  /**
   * Under aligned names the provisional record is plain, holds `now_ts` as its
   * timestamp and the lead's id as its key.
   */
  lemma BaseRecordFields(p: PipeNames, c: ColNames, lead: Lead, now: string, isDup: bool)
    requires AlignedNames(p, c) && NormalNames(p)
    ensures var base := BaseRecord(p, lead, now, isDup);
      PlainNames(base) && Has(base, c.timestamp) && Get(base, c.timestamp) == Some(now) &&
      Get(base, c.wamid) == lead.wamid && KeyField(base, c) == c.wamid
  {
    var ps := BasePairs(p, lead, now, isDup);
    KeysFromNames(ps, Names(p));
    FromPairsPlain(ps);
    FromPairsDistinctGet(ps, 0);
    FromPairsDistinctGet(ps, 6);
    KeyFieldIsId(ps, p, c);
  }

  /**
   * Under aligned names the final record is plain, carries the provisional
   * record's timestamp (or `now_ts`) and id, and `ts_for_updated_at`.
   */
  lemma FinalRecordFields(p: PipeNames, c: ColNames, base: Record, status: string, now: string, tsFor: string)
    requires AlignedNames(p, c) && NormalNames(p)
    ensures var m := FinalRecord(p, base, status, now, tsFor);
      PlainNames(m) && Get(m, c.timestamp) == Some(OrStr(Get(base, c.timestamp), now)) &&
      Has(m, c.updatedAt) && Get(m, c.updatedAt) == Some(tsFor) &&
      Get(m, c.wamid) == Get(base, c.wamid) && KeyField(m, c) == c.wamid
  {
    var ps := FinalPairs(p, base, status, now, tsFor);
    KeysFromNames(ps, Names(p));
    FromPairsPlain(ps);
    FromPairsDistinctGet(ps, 0);
    FromPairsDistinctGet(ps, 6);
    FromPairsDistinctGet(ps, 8);
    KeyFieldIsId(ps, p, c);
  }

  /**
   * The provisional upsert of a new id appends one row, found again by the id,
   * whose timestamp is the record's, and hands back the record unchanged.
   */
  lemma ProvisionalInserts(cells: Grid, c: ColNames, imm: set<string>, base: Record, prov: string, now: string, w: string)
    requires |cells| >= 1 && HeaderPos(Row(cells, 1), c.wamid) >= 0 && HeaderPos(Row(cells, 1), c.timestamp) >= 0
    requires RecordKey(base, c) == w && Trim(w) == w && w != "" && FindRow(cells, c.wamid, w).None?
    requires LastValueFor(base, c.wamid) == Some(Some(w)) && LastValueFor(base, c.timestamp) == Some(Some(now))
    ensures var s := UpsertWith(cells, c, imm, base, true, prov);
      s.result.Success? && s.record == base && Row(s.cells, 1) == Row(cells, 1) &&
      FindRow(s.cells, c.wamid, w) == Some(|cells| + 1) &&
      Cell(s.cells, |cells| + 1, HeaderPos(Row(cells, 1), c.timestamp) + 1) == now
  {
    UpsertInserts(cells, c, imm, base, true, prov);
    assert FindRow(cells + [InsertRow(Row(cells, 1), base)], c.wamid, w) == Some(|cells| + 1) by {
      InsertThenFound(cells, c, base);
    }
    InsertedCell(cells, base, c.timestamp, now);
  }

  /**
   * Steps 1 and 2 of the provisional update keep the record's id and make its
   * timestamp the stored one when non-empty, else the record's own.
   */
  lemma ProvisionalMerge(cells: Grid, r: int, c: ColNames, base: Record, prov: string, now: string, w: string)
    requires Normalized(c) && c.timestamp != c.updatedAt && c.wamid != c.timestamp && c.wamid != c.updatedAt
    requires PlainNames(base) && Get(base, c.wamid) == Some(w) && Get(base, c.timestamp) == Some(now)
    requires HeaderPos(Row(cells, 1), c.timestamp) >= 0
    ensures var m := MergeRecord(cells, r, c, base, true, prov);
      var stored := Cell(cells, r, HeaderPos(Row(cells, 1), c.timestamp) + 1);
      LastValueFor(m, c.wamid) == Some(Some(w)) && Get(m, c.wamid) == Some(w) &&
      LastValueFor(m, c.timestamp) == Some(Some(if stored != "" then stored else now)) &&
      Get(m, c.timestamp) == Some(if stored != "" then stored else now)
  {
    var m := MergeRecord(cells, r, c, base, true, prov);
    assert Has(base, c.wamid);
    MergedOther(cells, r, c, base, true, prov, c.wamid);
    MergeRecordFields(cells, r, c, base, true, prov);
    MergeKeepsPlain(cells, r, c, base, true, prov);
    LastValueForPlain(m, c.timestamp);
  }

  /**
   * The provisional upsert of a known id updates the row found, which stays
   * the row found; its timestamp becomes the merged record's.
   */
  lemma ProvisionalUpdates(cells: Grid, c: ColNames, imm: set<string>, base: Record, prov: string, w: string, r: nat, ts: string)
    requires HeaderPos(Row(cells, 1), c.timestamp) >= 0 && c.timestamp !in imm
    requires RecordKey(base, c) == w && Trim(w) == w && w != "" && FindRow(cells, c.wamid, w) == Some(r)
    requires LastValueFor(MergeRecord(cells, r, c, base, true, prov), c.wamid) == Some(Some(w))
    requires LastValueFor(MergeRecord(cells, r, c, base, true, prov), c.timestamp) == Some(Some(ts))
    ensures var s := UpsertWith(cells, c, imm, base, true, prov);
      s.result.Success? && s.record == MergeRecord(cells, r, c, base, true, prov) &&
      Row(s.cells, 1) == Row(cells, 1) && |s.cells| == |cells| &&
      FindRow(s.cells, c.wamid, w) == Some(r) &&
      Cell(s.cells, r, HeaderPos(Row(cells, 1), c.timestamp) + 1) == ts
  {
    UpsertIsUpdate(cells, c, imm, base, true, prov, r);
    UpdateKeepsRowFound(cells, r, c, imm, base, true, prov, w);
    UpdateCellIs(cells, r, c, imm, base, true, prov, c.timestamp, ts);
  }

  /**
   * Steps 1 and 2 of the final update keep the row's non-empty timestamp and
   * write the record's non-blank `updated_at` when both are the value `v`.
   */
  lemma FinalMerge(cells: Grid, r: int, c: ColNames, m: Record, fin: string, v: string)
    requires Normalized(c) && c.timestamp != c.updatedAt && PlainNames(m)
    requires HeaderPos(Row(cells, 1), c.timestamp) >= 0 && HeaderPos(Row(cells, 1), c.updatedAt) >= 0
    requires Cell(cells, r, HeaderPos(Row(cells, 1), c.timestamp) + 1) == v && Trim(v) != ""
    requires Has(m, c.updatedAt) && Get(m, c.updatedAt) == Some(v)
    ensures var merged := MergeRecord(cells, r, c, m, true, fin);
      LastValueFor(merged, c.timestamp) == Some(Some(v)) && LastValueFor(merged, c.updatedAt) == Some(Some(v))
  {
    assert v != "";
    MergedTimestamp(cells, r, c, m, fin);
    MergedUpdatedAt(cells, r, c, m, true, fin);
  }

  /** The final upsert of the id updates the row found, leaving both its timestamp and `updated_at` the value `v`. */
  lemma FinalUpdates(cells: Grid, c: ColNames, imm: set<string>, m: Record, fin: string, w: string, r: nat, v: string)
    requires HeaderPos(Row(cells, 1), c.timestamp) >= 0 && HeaderPos(Row(cells, 1), c.updatedAt) >= 0
    requires c.timestamp !in imm && c.updatedAt !in imm
    requires RecordKey(m, c) == w && Trim(w) == w && FindRow(cells, c.wamid, w) == Some(r)
    requires LastValueFor(MergeRecord(cells, r, c, m, true, fin), c.timestamp) == Some(Some(v))
    requires LastValueFor(MergeRecord(cells, r, c, m, true, fin), c.updatedAt) == Some(Some(v))
    ensures var s := UpsertWith(cells, c, imm, m, true, fin);
      Cell(s.cells, r, HeaderPos(Row(cells, 1), c.timestamp) + 1) == v &&
      Cell(s.cells, r, HeaderPos(Row(cells, 1), c.updatedAt) + 1) == v
  {
    var after := UpdateStep(cells, r, c, imm, m, true, fin).cells;
    UpsertIsUpdate(cells, c, imm, m, true, fin, r);
    assert UpsertWith(cells, c, imm, m, true, fin).cells == after;
    UpdateCellIs(cells, r, c, imm, m, true, fin, c.timestamp, v);
    assert Cell(after, r, HeaderPos(Row(cells, 1), c.timestamp) + 1) == v;
    UpdateCellIs(cells, r, c, imm, m, true, fin, c.updatedAt, v);
    assert Cell(after, r, HeaderPos(Row(cells, 1), c.updatedAt) + 1) == v;
  }

  /** Under aligned names the provisional record has the id as its key and `now_ts` as its last timestamp. */
  lemma BaseRecordKeys(p: PipeNames, c: ColNames, lead: Lead, now: string, isDup: bool, w: string)
    requires AlignedNames(p, c) && NormalNames(p) && lead.wamid == Some(w) && Trim(w) == w
    ensures var base := BaseRecord(p, lead, now, isDup);
      PlainNames(base) && Get(base, c.wamid) == Some(w) && Get(base, c.timestamp) == Some(now) &&
      RecordKey(base, c) == w && LastValueFor(base, c.wamid) == Some(Some(w)) &&
      LastValueFor(base, c.timestamp) == Some(Some(now))
  {
    var base := BaseRecord(p, lead, now, isDup);
    BaseRecordFields(p, c, lead, now, isDup);
    LastValueForPlain(base, c.wamid);
    LastValueForPlain(base, c.timestamp);
  }

  /** Under aligned names the final record keeps the id as its key and carries `ts_for_updated_at`. */
  lemma FinalRecordKeys(p: PipeNames, c: ColNames, base: Record, status: string, now: string, tsFor: string, w: string)
    requires AlignedNames(p, c) && NormalNames(p) && Get(base, c.wamid) == Some(w) && Trim(w) == w
    ensures var m := FinalRecord(p, base, status, now, tsFor);
      PlainNames(m) && Has(m, c.updatedAt) && Get(m, c.updatedAt) == Some(tsFor) && RecordKey(m, c) == w
  {
    FinalRecordFields(p, c, base, status, now, tsFor);
  }

  /** A timestamp the dedupe block reads is the one stored in the row the upserts will find. */
  lemma DedupeReadsTargetTimestamp(cells: Grid, enabled: bool, keyCol: string, tsCol: string, w: string, fault: DedupeFault)
    requires Trim(w) == w
    ensures var d := DedupeWith(cells, enabled, keyCol, tsCol, Some(w), fault);
      d.existingTs.Some? ==>
        FindRow(cells, keyCol, w).Some? && HeaderPos(Row(cells, 1), tsCol) >= 0 &&
        d.existingTs.value == Cell(cells, FindRow(cells, keyCol, w).value, HeaderPos(Row(cells, 1), tsCol) + 1)
  {
    DedupeIff(cells, enabled, keyCol, tsCol, Some(w), fault);
    if DedupeRow(cells, keyCol, w).Some? {
      DedupeRowIsUpsertRow(cells, keyCol, w);
    }
  }

  /** Aligned names keep the id, timestamp and `updated_at` columns apart. */
  lemma AlignedApart(p: PipeNames, c: ColNames)
    requires AlignedNames(p, c)
    ensures c.timestamp != c.updatedAt && c.wamid != c.timestamp && c.wamid != c.updatedAt
  {
    assert Names(p)[0] != Names(p)[8];
    assert Names(p)[0] != Names(p)[6];
    assert Names(p)[6] != Names(p)[8];
  }

  /**
   * The final upsert of the id, once the row `r` it finds has the timestamp
   * `v` and `ts_for_updated_at` is `v` too, leaves both columns of that row `v`.
   */
  lemma FinalSettles(cells: Grid, p: PipeNames, c: ColNames, imm: set<string>, base: Record, d: Dedupe,
                     notify: NotifyOutcome, now: string, fin: string, w: string, r: nat, v: string)
    requires AlignedNames(p, c) && NormalNames(p) && Normalized(c)
    requires HeaderPos(Row(cells, 1), c.timestamp) >= 0 && HeaderPos(Row(cells, 1), c.updatedAt) >= 0
    requires c.timestamp !in imm && c.updatedAt !in imm
    requires Get(base, c.wamid) == Some(w) && Trim(w) == w && FindRow(cells, c.wamid, w) == Some(r)
    requires Cell(cells, r, HeaderPos(Row(cells, 1), c.timestamp) + 1) == v && Trim(v) != ""
    requires UpdatedAtFor(d.existingTs, base, p, now) == v
    ensures var s := UpsertWith(cells, c, imm, FinalMerged(p, d, base, notify, now), true, fin);
      Cell(s.cells, r, HeaderPos(Row(cells, 1), c.timestamp) + 1) == v &&
      Cell(s.cells, r, HeaderPos(Row(cells, 1), c.updatedAt) + 1) == v
  {
    var status := EmailStatus(d.isDup, notify);
    var m := FinalRecord(p, base, status, now, v);
    assert FinalMerged(p, d, base, notify, now) == m;
    AlignedApart(p, c);
    FinalRecordKeys(p, c, base, status, now, v, w);
    FinalMerge(cells, r, c, m, fin, v);
    FinalUpdates(cells, c, imm, m, fin, w, r, v);
  }

  /**
   * A lead with a name or a phone but no id never reaches the notifier: the
   * provisional upsert finds no key and the answer is `sheets_upsert_failed`.
   */
  lemma NoWamidFails(cells: Grid, env: Environment, lead: Lead, faults: Faults, clock: Clock, notify: NotifyOutcome)
    requires Aligned(env) && !Invalid(lead) && lead.wamid.None?
    ensures LeadSpec(cells, env, lead, faults, clock, notify) == Run(Failed("sheets_upsert_failed"), cells, false)
  {
    var p := PipeNamesOf(env);
    var c := Colnames(env);
    var d := DedupeSpec(cells, env, lead, faults.dedupe);
    ColnamesNormalized(env);
    AlignedNormal(p, c);
    BaseRecordFields(p, c, lead, clock.now, d.isDup);
    var base := BaseRecord(p, lead, clock.now, d.isDup);
    assert RecordKey(base, c) == "";
    UpsertRequiresKey(cells, c, Immutable(env), base, true, clock.provisional);
  }
}
