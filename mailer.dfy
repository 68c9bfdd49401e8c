/**
 * The pluggable SMTP mailer: its configuration read from the environment,
 * the check of the minimum configuration for a real send, the resolution of
 * the recipient list, and the order of the decisions `send_email` takes
 * before it opens a connection.
 */
module Mailer {

  import opened Wrappers
  import opened Text
  import opened Env

  // ---------------------------------------------------------------------------
  // Small helpers
  // ---------------------------------------------------------------------------

  lemma LowerUpper(s: string)
    ensures Lower(Upper(s)) == Lower(s)
  {
    LowerEach(s);
    LowerEach(Upper(s));
    assert forall i :: 0 <= i < |s| ==> LowerChar(UpperChar(s[i])) == LowerChar(s[i]);
  }

  /** `_bool` ignores case: an upper-cased value reads the same. */
  lemma TruthyIgnoresCase(s: string)
    ensures IsTruthy(Some(Upper(s))) <==> IsTruthy(Some(s))
  {
    TrimUpper(s);
    LowerUpper(Trim(s));
    assert Norm(Upper(s)) == Norm(s);
  }

  /**
   * The value `_first_nonempty` picks: the first argument that is neither None
   * nor blank, trimmed; "" when there is none.
   */
  function FirstNonemptyOf(vals: seq<Option<string>>): string {
    if vals == [] then ""
    else if OrEmpty(vals[0]) != "" && Trim(OrEmpty(vals[0])) != "" then Trim(OrEmpty(vals[0]))
    else FirstNonemptyOf(vals[1..])
  }

  /** The result is "" exactly when every argument is None or blank. */
  lemma {:induction false} FirstNonemptyEmptyIff(vals: seq<Option<string>>)
    ensures FirstNonemptyOf(vals) == "" <==> forall i :: 0 <= i < |vals| ==> IsBlank(OrEmpty(vals[i]))
  {
    if vals != [] {
      var v := OrEmpty(vals[0]);
      TrimEmptyIff(v);
      FirstNonemptyEmptyIff(vals[1..]);
      if Trim(v) == "" {
        assert forall i :: 1 <= i < |vals| ==> vals[i] == vals[1..][i - 1];
      } else {
        assert v != "";
      }
    }
  }

  /**
   * A non-empty result is the trimmed value of argument `i`, and every
   * argument before it is None or blank.
   */
  lemma {:induction false} FirstNonemptyIndex(vals: seq<Option<string>>) returns (i: int)
    requires FirstNonemptyOf(vals) != ""
    ensures 0 <= i < |vals| && Trim(OrEmpty(vals[i])) == FirstNonemptyOf(vals)
    ensures forall j :: 0 <= j < i ==> IsBlank(OrEmpty(vals[j]))
  {
    var v := OrEmpty(vals[0]);
    TrimEmptyIff(v);
    if v != "" && Trim(v) != "" {
      i := 0;
    } else {
      var k := FirstNonemptyIndex(vals[1..]);
      i := k + 1;
      assert vals[i] == vals[1..][k];
      forall j | 0 <= j < i
        ensures IsBlank(OrEmpty(vals[j]))
      {
        if j > 0 {
          assert vals[j] == vals[1..][j - 1];
        }
      }
    }
  }

  /** `_first_nonempty(*vals)`: a loop with an early return. */
  method FirstNonempty(vals: seq<Option<string>>) returns (r: string)
    ensures r == FirstNonemptyOf(vals)
  {
    var i := 0;
    while i < |vals|
      invariant 0 <= i <= |vals|
      invariant FirstNonemptyOf(vals[i..]) == FirstNonemptyOf(vals)
    {
      assert vals[i..][1..] == vals[i + 1..];
      var v := OrEmpty(vals[i]);
      if v != "" && Trim(v) != "" {
        return Trim(v);
      }
      i := i + 1;
    }
    return "";
  }

  // ---------------------------------------------------------------------------
  // Configuration
  // ---------------------------------------------------------------------------

  datatype SmtpCfg = SmtpCfg(
    enabled: bool, dry: bool, host: string, port: int, user: string, password: string,
    fromAddr: string, toDefault: string, tls: bool, useSsl: bool, timeout: int)

  /**
   * `_cfg()`; None when `int()` rejects SMTP_PORT or SMTP_TIMEOUT, which
   * raises before any flag is looked at.
   */
  function Cfg(env: Environment): Option<SmtpCfg> {
    var port := ParseInt(Getenv(env, "SMTP_PORT", "587"));
    var timeout := ParseInt(Getenv(env, "SMTP_TIMEOUT", "10"));
    if port.None? || timeout.None? then None
    else
      Some(SmtpCfg(
        IsTruthy(GetenvOpt(env, "EMAIL_ENABLED")),
        IsTruthy(GetenvOpt(env, "EMAIL_DRY_RUN")),
        Getenv(env, "SMTP_HOST", ""),
        port.value,
        Getenv(env, "SMTP_USER", ""),
        Getenv(env, "SMTP_PASS", ""),
        Getenv(env, "SMTP_FROM", Getenv(env, "SMTP_USER", "")),
        Getenv(env, "SMTP_TO_DEFAULT", ""),
        IsTruthy(Some(Getenv(env, "SMTP_TLS", "1"))),
        IsTruthy(Some(Getenv(env, "SMTP_SSL", "0"))),
        timeout.value))
  }

  /** Sending is off unless EMAIL_ENABLED is set to a truthy value. */
  lemma UnsetMeansDisabled(env: Environment)
    requires "EMAIL_ENABLED" !in env && Cfg(env).Some?
    ensures !Cfg(env).value.enabled
  {
  }

  /** The keys `validate_smtp_cfg` requires, in order. */
  const Required: seq<string> := ["host", "port", "from_addr"]

  /** Whether `cfg.get(k)` is falsy. */
  predicate Missing(cfg: SmtpCfg, k: string) {
    match k
    case "host" => cfg.host == ""
    case "port" => cfg.port == 0
    case "from_addr" => cfg.fromAddr == ""
    case _ => true
  }

  /** `f"faltando SMTP_{k.upper() if k != 'from_addr' else 'FROM'}"`. */
  function IssueFor(k: string): string {
    "faltando SMTP_" + (if k != "from_addr" then Upper(k) else "FROM")
  }

  lemma IssueLabels()
    ensures IssueFor("host") == "faltando SMTP_HOST"
    ensures IssueFor("port") == "faltando SMTP_PORT"
    ensures IssueFor("from_addr") == "faltando SMTP_FROM"
  {
    assert Upper("host") == "HOST" by {
      assert Upper("host")[0] == 'H' && Upper("host")[1] == 'O' && Upper("host")[2] == 'S' && Upper("host")[3] == 'T';
    }
    assert Upper("port") == "PORT" by {
      assert Upper("port")[0] == 'P' && Upper("port")[1] == 'O' && Upper("port")[2] == 'R' && Upper("port")[3] == 'T';
    }
  }

  /** The issues collected by the loop over `keys`. */
  function MissingIssues(cfg: SmtpCfg, keys: seq<string>): seq<string> {
    if keys == [] then []
    else
      var rest := MissingIssues(cfg, keys[..|keys| - 1]);
      if Missing(cfg, keys[|keys| - 1]) then rest + [IssueFor(keys[|keys| - 1])] else rest
  }

  /** Exactly one of user and password is set. */
  predicate HalfCredentials(cfg: SmtpCfg) {
    (cfg.user != "" && cfg.password == "") || (cfg.password != "" && cfg.user == "")
  }

  const CredentialsIssue: string := "SMTP_USER/SMTP_PASS incompletos"

  /** The `issues` list of `validate_smtp_cfg`. */
  function Issues(cfg: SmtpCfg): seq<string> {
    MissingIssues(cfg, Required) + (if HalfCredentials(cfg) then [CredentialsIssue] else [])
  }

  /** `validate_smtp_cfg(cfg)`: the `ok` flag and the `issues` list. */
  method ValidateSmtpCfg(cfg: SmtpCfg) returns (ok: bool, issues: seq<string>)
    ensures issues == Issues(cfg) && (ok <==> issues == [])
  {
    issues := [];
    var i := 0;
    while i < |Required|
      invariant 0 <= i <= |Required|
      invariant issues == MissingIssues(cfg, Required[..i])
    {
      assert Required[..i + 1][..i] == Required[..i];
      if Missing(cfg, Required[i]) {
        issues := issues + [IssueFor(Required[i])];
      }
      i := i + 1;
    }
    assert Required[..|Required|] == Required;
    if (cfg.user != "" && cfg.password == "") || (cfg.password != "" && cfg.user == "") {
      issues := issues + [CredentialsIssue];
    }
    ok := |issues| == 0;
  }

  lemma MissingIssuesOfRequired(cfg: SmtpCfg)
    ensures MissingIssues(cfg, Required) ==
      (if cfg.host == "" then [IssueFor("host")] else []) +
      (if cfg.port == 0 then [IssueFor("port")] else []) +
      (if cfg.fromAddr == "" then [IssueFor("from_addr")] else [])
  {
    var h := if cfg.host == "" then [IssueFor("host")] else [];
    var p := if cfg.port == 0 then [IssueFor("port")] else [];
    var f := if cfg.fromAddr == "" then [IssueFor("from_addr")] else [];
    assert MissingIssues(cfg, ["host"]) == h by {
      assert ["host"][..0] == [];
    }
    assert MissingIssues(cfg, ["host", "port"]) == h + p by {
      assert ["host", "port"][..1] == ["host"];
    }
    assert MissingIssues(cfg, Required) == h + p + f by {
      assert Required[..2] == ["host", "port"];
    }
  }

  /**
   * The configuration is valid exactly when host, port and sender are set and
   * user and password are both set or both unset; there are at most four issues.
   */
  lemma IssuesValid(cfg: SmtpCfg)
    ensures Issues(cfg) == [] <==>
      cfg.host != "" && cfg.port != 0 && cfg.fromAddr != "" && (cfg.user != "" <==> cfg.password != "")
    ensures |Issues(cfg)| <= 4
  {
    MissingIssuesOfRequired(cfg);
  }

  /** One issue names each missing setting, and one the half-set credentials. */
  lemma IssuesNamed(cfg: SmtpCfg)
    ensures "faltando SMTP_HOST" in Issues(cfg) <==> cfg.host == ""
    ensures "faltando SMTP_PORT" in Issues(cfg) <==> cfg.port == 0
    ensures "faltando SMTP_FROM" in Issues(cfg) <==> cfg.fromAddr == ""
    ensures CredentialsIssue in Issues(cfg) <==> HalfCredentials(cfg)
  {
    var h, p, f := "faltando SMTP_HOST", "faltando SMTP_PORT", "faltando SMTP_FROM";
    assert h[14] == 'H' && p[14] == 'P' && f[14] == 'F' && CredentialsIssue[0] == 'S';
    IssuesMembers(cfg, h);
    IssuesMembers(cfg, p);
    IssuesMembers(cfg, f);
    IssuesMembers(cfg, CredentialsIssue);
  }

  /** The members of the issue list: one label per missing setting, then the credentials one. */
  lemma IssuesMembers(cfg: SmtpCfg, x: string)
    ensures x in Issues(cfg) <==>
      (x == "faltando SMTP_HOST" && cfg.host == "") || (x == "faltando SMTP_PORT" && cfg.port == 0) ||
      (x == "faltando SMTP_FROM" && cfg.fromAddr == "") || (x == CredentialsIssue && HalfCredentials(cfg))
  {
    MissingIssuesOfRequired(cfg);
    IssueLabels();
  }

  // ---------------------------------------------------------------------------
  // `send_email`
  // ---------------------------------------------------------------------------

  /** The address pieces of a `cc` or `bcc` argument; nothing when it is None or "". */
  function Pieces(v: Option<string>): seq<string> {
    if v.Some? && v.value != "" then CommaList(v.value) else []
  }

  /** `[to_addr]`, then the cc pieces, then the bcc pieces. */
  function RecipientList(toAddr: string, cc: Option<string>, bcc: Option<string>): seq<string> {
    [toAddr] + Pieces(cc) + Pieces(bcc)
  }

  /** The recipient list built with `+=`. */
  method Recipients(toAddr: string, cc: Option<string>, bcc: Option<string>) returns (r: seq<string>)
    ensures r == RecipientList(toAddr, cc, bcc)
  {
    r := [toAddr];
    if cc.Some? && cc.value != "" {
      r := r + CommaList(cc.value);
    }
    if bcc.Some? && bcc.value != "" {
      r := r + CommaList(bcc.value);
    }
  }

  /**
   * The first recipient is `to_addr` as given (not split); every other one is
   * a trimmed, non-blank, comma-free piece of cc or bcc.
   */
  lemma RecipientListShape(toAddr: string, cc: Option<string>, bcc: Option<string>)
    ensures var r := RecipientList(toAddr, cc, bcc);
      |r| == 1 + |Pieces(cc)| + |Pieces(bcc)| && r[0] == toAddr &&
      forall i :: 1 <= i < |r| ==> r[i] != "" && Trim(r[i]) == r[i] && ',' !in r[i]
  {
    PiecesShape(cc);
    PiecesShape(bcc);
    AllAfterFirst(Address, toAddr, Pieces(cc), Pieces(bcc));
    assert RecipientList(toAddr, cc, bcc) == [toAddr] + Pieces(cc) + Pieces(bcc);
  }

  /** Every element after the first of `[x] + a + b` comes from `a` or `b`. */
  lemma AllAfterFirst<T>(P: T -> bool, x: T, a: seq<T>, b: seq<T>)
    requires forall i :: 0 <= i < |a| ==> P(a[i])
    requires forall i :: 0 <= i < |b| ==> P(b[i])
    ensures forall i :: 1 <= i < |[x] + a + b| ==> P(([x] + a + b)[i])
  {
    var r := [x] + a + b;
    forall i | 1 <= i < |r|
      ensures P(r[i])
    {
      if i - 1 < |a| {
        assert r[i] == a[i - 1];
      } else {
        assert r[i] == b[i - 1 - |a|];
      }
    }
  }

  predicate Address(x: string) {
    x != "" && Trim(x) == x && ',' !in x
  }

  lemma PiecesShape(v: Option<string>)
    ensures forall i :: 0 <= i < |Pieces(v)| ==> Address(Pieces(v)[i])
  {
    if v.Some? && v.value != "" {
      var p := CommaList(v.value);
      assert forall i :: 0 <= i < |p| ==> p[i] in p;
    }
  }

  /** Address lists written as comma-separated text come back in order after `to_addr`. */
  lemma RecipientsOfJoined(toAddr: string, ccs: seq<string>, bccs: seq<string>)
    requires |ccs| >= 1 && |bccs| >= 1
    requires forall x :: x in ccs ==> x != "" && Trim(x) == x && ',' !in x
    requires forall x :: x in bccs ==> x != "" && Trim(x) == x && ',' !in x
    ensures RecipientList(toAddr, Some(Join(ccs, ',')), Some(Join(bccs, ','))) == [toAddr] + ccs + bccs
  {
    CommaListJoin(ccs);
    CommaListJoin(bccs);
  }

  /** How `send_email` ends; `Raises` is the ValueError of `_cfg()`. */
  datatype MailResult =
    | Raises
    | Disabled
    | Skip(reason: string)
    | DryRun(to: string, cc: Option<string>, bcc: Option<string>, subject: string)
    | InvalidConfig(issues: seq<string>)
    | Sent(to: string, subject: string, recipients: seq<string>, ssl: bool, starttls: bool, login: bool)
    | SendError

  /** The connection `send_email` opens: SSL on request or on port 465, else plain with optional STARTTLS. */
  function Connected(cfg: SmtpCfg, toAddr: string, subject: string, recipients: seq<string>, delivered: bool): MailResult {
    if !delivered then SendError
    else
      var ssl := cfg.useSsl || cfg.port == 465;
      Sent(toAddr, subject, recipients, ssl, !ssl && cfg.tls, cfg.user != "")
  }

  /** The decisions of `send_email` once `_cfg()` has produced `cfg`. */
  function SendWith(cfg: SmtpCfg, to: Option<string>, subject: string, cc: Option<string>,
                    bcc: Option<string>, dryRun: Option<bool>, delivered: bool): MailResult
  {
    if !cfg.enabled then Disabled
    else
      var toAddr := FirstNonemptyOf([to, Some(cfg.toDefault)]);
      if toAddr == "" then Skip("no_to")
      else
        var dry := if dryRun.Some? then dryRun.value else cfg.dry;
        if dry then DryRun(toAddr, cc, bcc, subject)
        else if Issues(cfg) != [] then InvalidConfig(Issues(cfg))
        else Connected(cfg, toAddr, subject, RecipientList(toAddr, cc, bcc), delivered)
  }

  /**
   * `send_email(to, subject, html, cc=, bcc=, dry_run=)`; `delivered` is
   * whether the SMTP session completes without raising.
   */
  function SendEmailSpec(env: Environment, to: Option<string>, subject: string, cc: Option<string>,
                         bcc: Option<string>, dryRun: Option<bool>, delivered: bool): MailResult
  {
    match Cfg(env)
    case None => Raises
    case Some(cfg) => SendWith(cfg, to, subject, cc, bcc, dryRun, delivered)
  }

  /** `send_email`, decision by decision. */
  method SendEmail(env: Environment, to: Option<string>, subject: string, cc: Option<string>,
                   bcc: Option<string>, dryRun: Option<bool>, delivered: bool) returns (res: MailResult)
    ensures res == SendEmailSpec(env, to, subject, cc, bcc, dryRun, delivered)
  {
    var c := Cfg(env);
    if c.None? {
      return Raises;
    }
    var cfg := c.value;
    if !cfg.enabled {
      return Disabled;
    }
    var toAddr := FirstNonempty([to, Some(cfg.toDefault)]);
    if toAddr == "" {
      return Skip("no_to");
    }
    var dry := if dryRun.Some? then dryRun.value else cfg.dry;
    var recipients := Recipients(toAddr, cc, bcc);
    if dry {
      return DryRun(toAddr, cc, bcc, subject);
    }
    var ok, issues := ValidateSmtpCfg(cfg);
    if !ok {
      return InvalidConfig(issues);
    }
    res := Connected(cfg, toAddr, subject, recipients, delivered);
  }

  /** A bad SMTP_PORT or SMTP_TIMEOUT raises even when sending is disabled. */
  lemma BadNumberRaises(env: Environment, to: Option<string>, subject: string, cc: Option<string>,
                        bcc: Option<string>, dryRun: Option<bool>, delivered: bool)
    requires ParseInt(Getenv(env, "SMTP_PORT", "587")).None? || ParseInt(Getenv(env, "SMTP_TIMEOUT", "10")).None?
    ensures SendEmailSpec(env, to, subject, cc, bcc, dryRun, delivered) == Raises
  {
  }

  /** Disabled sending answers "disabled" whatever the arguments: no other check runs. */
  lemma DisabledFirst(cfg: SmtpCfg, to: Option<string>, subject: string, cc: Option<string>,
                      bcc: Option<string>, dryRun: Option<bool>, delivered: bool)
    requires !cfg.enabled
    ensures SendWith(cfg, to, subject, cc, bcc, dryRun, delivered) == Disabled
    ensures SendWith(cfg, None, "", None, None, None, false) == Disabled
  {
  }

  /** With sending on and neither `to` nor SMTP_TO_DEFAULT non-blank, the answer is skip/no_to. */
  lemma NoRecipientSkips(cfg: SmtpCfg, to: Option<string>, subject: string, cc: Option<string>,
                         bcc: Option<string>, dryRun: Option<bool>, delivered: bool)
    requires cfg.enabled && IsBlank(OrEmpty(to)) && IsBlank(cfg.toDefault)
    ensures SendWith(cfg, to, subject, cc, bcc, dryRun, delivered) == Skip("no_to")
  {
    var vals := [to, Some(cfg.toDefault)];
    assert vals[0] == to && vals[1] == Some(cfg.toDefault);
    FirstNonemptyEmptyIff(vals);
  }

  /**
   * Dry-run answers without validating: even an invalid configuration gives
   * "dry-run", and the outcome never depends on the SMTP session.
   */
  lemma DryRunSkipsValidation(cfg: SmtpCfg, to: Option<string>, subject: string, cc: Option<string>,
                              bcc: Option<string>, dryRun: Option<bool>)
    requires cfg.enabled && !IsBlank(OrEmpty(to)) && dryRun == Some(true)
    ensures SendWith(cfg, to, subject, cc, bcc, dryRun, true).DryRun?
    ensures SendWith(cfg, to, subject, cc, bcc, dryRun, true) == SendWith(cfg, to, subject, cc, bcc, dryRun, false)
  {
    FirstNonemptyEmptyIff([to, Some(cfg.toDefault)]);
  }

  /** A real send with an invalid configuration stops at "invalid_config" before any connection. */
  lemma InvalidStopsBeforeConnect(cfg: SmtpCfg, to: Option<string>, subject: string, cc: Option<string>,
                                  bcc: Option<string>, delivered: bool)
    requires cfg.enabled && !IsBlank(OrEmpty(to)) && Issues(cfg) != []
    ensures SendWith(cfg, to, subject, cc, bcc, Some(false), delivered) == InvalidConfig(Issues(cfg))
  {
    FirstNonemptyEmptyIff([to, Some(cfg.toDefault)]);
  }

  /**
   * A completed send went through validation, to the trimmed `to` when it is
   * non-blank, and to the cc and bcc pieces after it.
   */
  lemma SentFacts(cfg: SmtpCfg, to: Option<string>, subject: string, cc: Option<string>,
                  bcc: Option<string>, dryRun: Option<bool>, delivered: bool)
    requires SendWith(cfg, to, subject, cc, bcc, dryRun, delivered).Sent?
    ensures cfg.enabled && Issues(cfg) == [] && delivered
    ensures var s := SendWith(cfg, to, subject, cc, bcc, dryRun, delivered);
      s.recipients == [s.to] + Pieces(cc) + Pieces(bcc) &&
      (!IsBlank(OrEmpty(to)) ==> s.to == Trim(OrEmpty(to)))
  {
    TrimEmptyIff(OrEmpty(to));
  }
}
