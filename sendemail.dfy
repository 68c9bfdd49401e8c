/**
 * The lead-notification mailer: the recipient list (EMAIL_TO plus the lead's
 * own address, deduplicated ignoring case), the plain-text fallback made by
 * stripping tags from the HTML body, and the sequence of gates `_smtp_send`
 * passes before it hands the message to the SMTP server.
 */
module SendEmail {

  import opened Wrappers
  import opened Text
  import opened Env
  import opened Records

  // ---------------------------------------------------------------------------
  // Recipients
  // ---------------------------------------------------------------------------

  /** `(record.get("email") or "").strip()`. */
  function LeadEmail(rec: Record): string {
    Trim(OrEmpty(Get(rec, "email")))
  }

  /** The lead's own address is added when it is non-blank and has an '@'. */
  predicate UsableLeadEmail(e: string) {
    e != "" && '@' in e
  }

  /** The EMAIL_TO pieces: split on commas, trimmed, blanks dropped. */
  function EnvRecipients(env: Environment): seq<string> {
    CommaList(Getenv(env, "EMAIL_TO", ""))
  }

  /** The list before the dedupe: the EMAIL_TO pieces, then the usable lead address. */
  function Candidates(env: Environment, rec: Record): seq<string> {
    var lead := LeadEmail(rec);
    if UsableLeadEmail(lead) then EnvRecipients(env) + [lead] else EnvRecipients(env)
  }

  /** The lower-cased forms of the entries of a list. */
  function Keys(xs: seq<string>): set<string> {
    set i | 0 <= i < |xs| :: Lower(xs[i])
  }

  lemma KeysAppend(xs: seq<string>, x: string)
    ensures Keys(xs + [x]) == Keys(xs) + {Lower(x)}
  {
    var ys := xs + [x];
    assert forall i :: 0 <= i < |xs| ==> ys[i] == xs[i];
    assert ys[|xs|] == x;
  }

  /** What the dedupe loop keeps: an entry whose lower-cased form was not seen before. */
  function Uniq(xs: seq<string>): seq<string> {
    if xs == [] then []
    else
      var u := Uniq(xs[..|xs| - 1]);
      if Lower(xs[|xs| - 1]) in Keys(u) then u else u + [xs[|xs| - 1]]
  }

  /** No address is lost: every lower-cased form of the input is kept. */
  lemma {:induction false} UniqKeys(xs: seq<string>)
    ensures Keys(Uniq(xs)) == Keys(xs)
  {
    if xs != [] {
      var init, x := xs[..|xs| - 1], xs[|xs| - 1];
      UniqKeys(init);
      assert xs == init + [x];
      KeysAppend(init, x);
      assert Keys(xs) == Keys(init) + {Lower(x)};
      var u0 := Uniq(init);
      if Lower(x) in Keys(u0) {
        assert Uniq(xs) == u0;
        assert Keys(init) + {Lower(x)} == Keys(init);
      } else {
        assert Uniq(xs) == u0 + [x];
        KeysAppend(u0, x);
      }
    }
  }

  /** No two entries are equal ignoring case. */
  predicate CaseDistinct(u: seq<string>) {
    forall i, j :: 0 <= i < j < |u| ==> Lower(u[i]) != Lower(u[j])
  }

  /** No two kept entries are equal ignoring case. */
  lemma {:induction false} UniqDistinct(xs: seq<string>)
    ensures CaseDistinct(Uniq(xs))
  {
    if xs != [] {
      var init := xs[..|xs| - 1];
      UniqDistinct(init);
      var u0 := Uniq(init);
      var x := xs[|xs| - 1];
      assert Uniq(xs) == if Lower(x) in Keys(u0) then u0 else u0 + [x];
      if Lower(x) !in Keys(u0) {
        var u := u0 + [x];
        forall i, j | 0 <= i < j < |u|
          ensures Lower(u[i]) != Lower(u[j])
        {
          if j == |u0| {
            assert u[i] == u0[i] && u[j] == x;
            assert Lower(u0[i]) in Keys(u0);
            assert Lower(x) != Lower(u0[i]);
          } else {
            assert u[i] == u0[i] && u[j] == u0[j];
            assert Lower(u0[i]) != Lower(u0[j]);
          }
        }
      }
    }
  }

  /**
   * `u` sits at increasing positions `pos` of `xs`, and no entry of `xs`
   * before such a position has the same lower-cased form.
   */
  predicate FirstPositions(xs: seq<string>, u: seq<string>, pos: seq<int>) {
    |pos| == |u| &&
    (forall k :: 0 <= k < |u| ==> 0 <= pos[k] < |xs| && xs[pos[k]] == u[k]) &&
    (forall k, l :: 0 <= k < l < |u| ==> pos[k] < pos[l]) &&
    (forall k, j :: 0 <= k < |u| && 0 <= j < pos[k] ==> Lower(xs[j]) != Lower(u[k]))
  }

  lemma FirstPositionsExtend(xs: seq<string>, u: seq<string>, pos: seq<int>, x: string)
    requires FirstPositions(xs, u, pos)
    ensures FirstPositions(xs + [x], u, pos)
  {
    var ys := xs + [x];
    assert forall j :: 0 <= j < |xs| ==> ys[j] == xs[j];
  }

  lemma FirstPositionsAdd(xs: seq<string>, u: seq<string>, pos: seq<int>, x: string)
    requires FirstPositions(xs, u, pos)
    requires forall j :: 0 <= j < |xs| ==> Lower(xs[j]) != Lower(x)
    ensures FirstPositions(xs + [x], u + [x], pos + [|xs|])
  {
    var ys, v, q := xs + [x], u + [x], pos + [|xs|];
    assert forall j :: 0 <= j < |xs| ==> ys[j] == xs[j];
    assert forall k :: 0 <= k < |u| ==> v[k] == u[k] && q[k] == pos[k];
    assert v[|u|] == x && q[|u|] == |xs| && ys[|xs|] == x;
  }

  /**
   * Each kept entry is an input entry, in input order, and it is the first
   * input entry with its lower-cased form.
   */
  lemma {:induction false} UniqPositions(xs: seq<string>) returns (pos: seq<int>)
    ensures FirstPositions(xs, Uniq(xs), pos)
  {
    if xs == [] {
      pos := [];
    } else {
      var init, x := xs[..|xs| - 1], xs[|xs| - 1];
      assert xs == init + [x];
      var p0 := UniqPositions(init);
      var u0 := Uniq(init);
      if Lower(x) in Keys(u0) {
        pos := p0;
        FirstPositionsExtend(init, u0, p0, x);
      } else {
        pos := p0 + [|init|];
        UniqKeys(init);
        forall j | 0 <= j < |init|
          ensures Lower(init[j]) != Lower(x)
        {
          assert Lower(init[j]) in Keys(init);
        }
        FirstPositionsAdd(init, u0, p0, x);
      }
    }
  }

  /** Every kept entry is an input entry. */
  lemma UniqSubset(xs: seq<string>)
    ensures forall x :: x in Uniq(xs) ==> x in xs
  {
    var u := Uniq(xs);
    var pos := UniqPositions(xs);
    forall x | x in u
      ensures x in xs
    {
      var k :| 0 <= k < |u| && u[k] == x;
      assert xs[pos[k]] == x;
    }
  }

  /** A list already free of case-insensitive repeats is returned as it is. */
  lemma {:induction false} UniqOfDistinct(xs: seq<string>)
    requires CaseDistinct(xs)
    ensures Uniq(xs) == xs
  {
    if xs != [] {
      var init, x := xs[..|xs| - 1], xs[|xs| - 1];
      UniqOfDistinct(init);
      assert xs == init + [x];
      forall i | 0 <= i < |init|
        ensures Lower(init[i]) != Lower(x)
      {
        assert init[i] == xs[i];
      }
      assert Lower(x) !in Keys(init);
    }
  }

  /** The dedupe loop of `_recipients_from_env_and_record`, with its `seen` set. */
  method DedupeIgnoringCase(xs: seq<string>) returns (uniq: seq<string>)
    ensures uniq == Uniq(xs)
  {
    var seen: set<string> := {};
    uniq := [];
    var i := 0;
    while i < |xs|
      invariant 0 <= i <= |xs|
      invariant uniq == Uniq(xs[..i]) && seen == Keys(uniq)
    {
      assert xs[..i + 1][..i] == xs[..i];
      var k := Lower(xs[i]);
      if k !in seen {
        KeysAppend(uniq, xs[i]);
        seen := seen + {k};
        uniq := uniq + [xs[i]];
      }
      i := i + 1;
    }
    assert xs[..|xs|] == xs;
  }

  /** `_recipients_from_env_and_record(record)`. */
  method RecipientsFromEnvAndRecord(env: Environment, rec: Record) returns (uniq: seq<string>)
    ensures uniq == Uniq(Candidates(env, rec))
  {
    var recipients := CommaList(Getenv(env, "EMAIL_TO", ""));
    var leadEmail := Trim(OrEmpty(Get(rec, "email")));
    if leadEmail != "" && '@' in leadEmail {
      recipients := recipients + [leadEmail];
    }
    uniq := DedupeIgnoringCase(recipients);
  }

  /** The candidates are trimmed, non-blank EMAIL_TO pieces, then possibly the usable lead address. */
  lemma CandidatesShape(env: Environment, rec: Record)
    ensures forall x :: x in Candidates(env, rec) ==>
      x != "" && Trim(x) == x && (x in EnvRecipients(env) || (x == LeadEmail(rec) && UsableLeadEmail(x)))
  {
    TrimIdempotent(OrEmpty(Get(rec, "email")));
  }

  /**
   * Every recipient is a trimmed, non-blank EMAIL_TO piece or the lead's
   * usable address; the lead's address is among them (up to case) when it is
   * usable, and an unusable one changes nothing.
   */
  lemma RecipientsFacts(env: Environment, rec: Record)
    ensures forall x :: x in Uniq(Candidates(env, rec)) ==>
      x != "" && Trim(x) == x &&
      (x in EnvRecipients(env) || (x == LeadEmail(rec) && UsableLeadEmail(x)))
    ensures UsableLeadEmail(LeadEmail(rec)) ==> Lower(LeadEmail(rec)) in Keys(Uniq(Candidates(env, rec)))
    ensures !UsableLeadEmail(LeadEmail(rec)) ==> Uniq(Candidates(env, rec)) == Uniq(EnvRecipients(env))
  {
    var c := Candidates(env, rec);
    UniqSubset(c);
    CandidatesShape(env, rec);
    var lead := LeadEmail(rec);
    if UsableLeadEmail(lead) {
      UniqKeys(c);
      assert c[|c| - 1] == lead;
      assert Lower(lead) in Keys(c);
    }
  }

  // ---------------------------------------------------------------------------
  // Plain-text fallback
  // ---------------------------------------------------------------------------

  /** The three spellings of a line break become newlines, in this order. */
  function Breaks(html: string): string {
    Replace(Replace(Replace(html, "<br>", "\n"), "<br/>", "\n"), "<br />", "\n")
  }

  /** The tags deleted outright before the character scan. */
  const BasicTags: seq<string> := ["<p>", "</p>", "<ul>", "</ul>", "<li>", "</li>", "<b>", "</b>", "<strong>", "</strong>"]

  predicate TagList(tags: seq<string>) {
    forall i :: 0 <= i < |tags| ==> tags[i] != [] && tags[i][0] == '<'
  }

  lemma BasicTagsAreTags()
    ensures TagList(BasicTags)
  {
  }

  /** `text.replace(tag, "")` for each tag in turn. */
  function RemoveTags(text: string, tags: seq<string>): string
    requires TagList(tags)
    decreases |tags|
  {
    if tags == [] then text else RemoveTags(Replace(text, tags[0], ""), tags[1..])
  }

  /**
   * The character scan from a given `skip` state: '<' starts skipping, '>'
   * ends it, and any other character is kept when not skipping.
   */
  function Visible(s: string, skip: bool): string
    decreases |s|
  {
    if s == [] then []
    else if s[0] == '<' then Visible(s[1..], true)
    else if s[0] == '>' then Visible(s[1..], false)
    else if skip then Visible(s[1..], skip)
    else [s[0]] + Visible(s[1..], skip)
  }

  /** `_strip_html(html)`. */
  function StripHtmlSpec(html: string): string {
    BasicTagsAreTags();
    Trim(Visible(RemoveTags(Breaks(html), BasicTags), false))
  }

  /** The tag-deleting loop of `_strip_html`. */
  method RemoveBasicTags(text0: string) returns (text: string)
    ensures text == RemoveTags(text0, BasicTags)
  {
    BasicTagsAreTags();
    text := text0;
    var i := 0;
    while i < |BasicTags|
      invariant 0 <= i <= |BasicTags|
      invariant RemoveTags(text, BasicTags[i..]) == RemoveTags(text0, BasicTags)
    {
      assert BasicTags[i..][1..] == BasicTags[i + 1..];
      text := Replace(text, BasicTags[i], "");
      i := i + 1;
    }
  }

  /** The character loop of `_strip_html`, toggling `skip`. */
  method SkipTags(text: string) returns (r: string)
    ensures r == Visible(text, false)
  {
    var out: string := [];
    var skip := false;
    var i := 0;
    while i < |text|
      invariant 0 <= i <= |text|
      invariant out + Visible(text[i..], skip) == Visible(text, false)
    {
      var ch := text[i];
      assert text[i..][1..] == text[i + 1..];
      if ch == '<' {
        skip := true;
      } else if ch == '>' {
        skip := false;
      } else if !skip {
        out := out + [ch];
      }
      i := i + 1;
    }
    r := out;
  }

  /** `_strip_html(html)`. */
  method StripHtml(html: string) returns (r: string)
    ensures r == StripHtmlSpec(html)
  {
    var text := Breaks(html);
    text := RemoveBasicTags(text);
    r := SkipTags(text);
    r := Trim(r);
  }

  /** The scan never emits a bracket. */
  lemma {:induction false} VisibleNoBrackets(s: string, skip: bool)
    ensures '<' !in Visible(s, skip) && '>' !in Visible(s, skip)
    decreases |s|
  {
    if s != [] {
      VisibleNoBrackets(s[1..], s[0] == '<' || (s[0] != '>' && skip));
    }
  }

  /** The plain-text body has no '<' and no '>'. */
  lemma StripHtmlNoBrackets(html: string)
    ensures '<' !in StripHtmlSpec(html) && '>' !in StripHtmlSpec(html)
  {
    BasicTagsAreTags();
    var v := Visible(RemoveTags(Breaks(html), BasicTags), false);
    VisibleNoBrackets(RemoveTags(Breaks(html), BasicTags), false);
    TrimChars(v);
  }

  predicate NoBrackets(s: string) {
    '<' !in s && '>' !in s
  }

  /** Text without brackets is copied when not skipping and dropped when skipping. */
  lemma {:induction false} VisiblePlain(s: string, skip: bool)
    requires NoBrackets(s)
    ensures Visible(s, skip) == if skip then [] else s
    decreases |s|
  {
    if s != [] {
      VisiblePlain(s[1..], skip);
    }
  }

  /** Plain text before a tag passes through unchanged. */
  lemma {:induction false} VisiblePlainPrefix(a: string, rest: string)
    requires NoBrackets(a)
    ensures Visible(a + rest, false) == a + Visible(rest, false)
    decreases |a|
  {
    if a != [] {
      assert (a + rest)[0] == a[0] && a[0] in a;
      assert (a + rest)[1..] == a[1..] + rest;
      assert forall c :: c in a[1..] ==> c in a;
      VisiblePlainPrefix(a[1..], rest);
      assert Visible(a + rest, false) == [a[0]] + Visible(a[1..] + rest, false);
      assert a == [a[0]] + a[1..];
    } else {
      assert a + rest == rest;
    }
  }

  /** Inside a tag everything up to the next '>' is dropped. */
  lemma {:induction false} SkipToClose(b: string, rest: string)
    requires '>' !in b
    ensures Visible(b + rest, true) == Visible(rest, true)
    decreases |b|
  {
    if b != [] {
      assert (b + rest)[0] == b[0] && b[0] in b;
      assert (b + rest)[1..] == b[1..] + rest;
      assert forall c :: c in b[1..] ==> c in b;
      SkipToClose(b[1..], rest);
      assert b[0] != '>';
      assert Visible(b + rest, true) == Visible(b[1..] + rest, true);
    } else {
      assert b + rest == rest;
    }
  }

  /** A whole `<...>` span is removed, and the scan resumes after it. */
  lemma VisibleDropsSpan(a: string, b: string, c: string)
    requires NoBrackets(a) && '>' !in b
    ensures Visible(a + "<" + b + ">" + c, false) == a + Visible(c, false)
  {
    var rest := "<" + b + ">" + c;
    assert a + "<" + b + ">" + c == a + rest;
    VisiblePlainPrefix(a, rest);
    assert rest[0] == '<' && rest[1..] == b + (">" + c);
    assert Visible(rest, false) == Visible(b + (">" + c), true);
    SkipToClose(b, ">" + c);
    assert (">" + c)[0] == '>' && (">" + c)[1..] == c;
    assert Visible(">" + c, true) == Visible(c, false);
    assert Visible(rest, false) == Visible(c, false);
    assert Visible(a + rest, false) == a + Visible(c, false);
  }

  /** A tag opened and never closed swallows the rest of the text. */
  lemma UnclosedTagDropsRest(a: string, b: string)
    requires NoBrackets(a) && NoBrackets(b)
    ensures Visible(a + "<" + b, false) == a
  {
    VisiblePlainPrefix(a, "<" + b);
    assert a + "<" + b == a + ("<" + b);
    assert ("<" + b)[0] == '<' && ("<" + b)[1..] == b;
    VisiblePlain(b, true);
    assert Visible("<" + b, false) == [];
    assert a + [] == a;
  }

  /** A replacement leaves a prefix alone that cannot start a match. */
  lemma {:induction false} ReplacePlainPrefix(a: string, b: string, pat: string, rep: string)
    requires pat != [] && pat[0] !in a
    ensures Replace(a + b, pat, rep) == a + Replace(b, pat, rep)
    decreases |a|
  {
    if a != [] {
      var s := a + b;
      assert a[0] in a;
      assert forall c :: c in a[1..] ==> c in a;
      if |s| < |pat| {
        assert |b| < |pat|;
      } else {
        assert s[..|pat|][0] == a[0];
        assert s[..|pat|] != pat;
        assert s[1..] == a[1..] + b;
        ReplacePlainPrefix(a[1..], b, pat, rep);
        assert Replace(s, pat, rep) == [a[0]] + Replace(a[1..] + b, pat, rep);
        assert a == [a[0]] + a[1..];
      }
    } else {
      assert a + b == b;
    }
  }

  /** A piece that differs from the pattern early and cannot start another match is copied. */
  lemma ReplaceSkipsPiece(q: string, b: string, pat: string, rep: string, j: int)
    requires pat != [] && q != [] && pat[0] !in q[1..]
    requires 0 <= j < |q| && j < |pat| && q[j] != pat[j]
    ensures Replace(q + b, pat, rep) == q + Replace(b, pat, rep)
  {
    var s := q + b;
    if |s| < |pat| {
      assert |b| < |pat|;
    } else {
      assert s[..|pat|][j] == q[j];
      assert s[1..] == q[1..] + b;
      ReplacePlainPrefix(q[1..], b, pat, rep);
    }
  }

  lemma BreakPlain(a: string, b: string)
    requires '<' !in a
    ensures Breaks(a + "<br>" + b) == a + "\n" + Breaks(b)
  {
    var r1 := Replace(b, "<br>", "\n");
    var r2 := Replace(r1, "<br/>", "\n");
    var an := a + "\n";
    assert '<' !in an;
    ReplaceAfterPlain(a, "<br>", "\n", b);
    ReplacePlainPrefix(an, r1, "<br/>", "\n");
    ReplacePlainPrefix(an, r2, "<br />", "\n");
  }

  /** Plain text, then a piece that cannot match, are both copied. */
  lemma ReplaceSkipsAfterPlain(a: string, q: string, b: string, pat: string, rep: string, j: int)
    requires pat != [] && pat[0] !in a && q != [] && pat[0] !in q[1..]
    requires 0 <= j < |q| && j < |pat| && q[j] != pat[j]
    ensures Replace(a + q + b, pat, rep) == a + q + Replace(b, pat, rep)
  {
    ReplaceSkipsPiece(q, b, pat, rep, j);
    ReplacePlainPrefix(a, q + b, pat, rep);
    assert a + q + b == a + (q + b);
  }

  lemma BreakSlash(a: string, b: string)
    requires '<' !in a
    ensures Breaks(a + "<br/>" + b) == a + "\n" + Breaks(b)
  {
    var r1 := Replace(b, "<br>", "\n");
    var an := a + "\n";
    assert '<' !in an;
    assert "<br/>"[1..] == "br/>";
    ReplaceSkipsAfterPlain(a, "<br/>", b, "<br>", "\n", 3);
    ReplaceAfterPlain(a, "<br/>", "\n", r1);
    ReplacePlainPrefix(an, Replace(r1, "<br/>", "\n"), "<br />", "\n");
  }

  lemma BreakSpaced(a: string, b: string)
    requires '<' !in a
    ensures Breaks(a + "<br />" + b) == a + "\n" + Breaks(b)
  {
    var r1 := Replace(b, "<br>", "\n");
    assert "<br />"[1..] == "br />";
    ReplaceSkipsAfterPlain(a, "<br />", b, "<br>", "\n", 3);
    ReplaceSkipsAfterPlain(a, "<br />", r1, "<br/>", "\n", 3);
    ReplaceAfterPlain(a, "<br />", "\n", Replace(r1, "<br/>", "\n"));
  }

  /** Each of `<br>`, `<br/>` and `<br />` becomes a newline before any tag is removed. */
  lemma BreakBecomesNewline(a: string, br: string, b: string)
    requires br in {"<br>", "<br/>", "<br />"} && '<' !in a
    ensures Breaks(a + br + b) == a + "\n" + Breaks(b)
  {
    if br == "<br>" {
      BreakPlain(a, b);
    } else if br == "<br/>" {
      BreakSlash(a, b);
    } else {
      BreakSpaced(a, b);
    }
  }

  /** Deleting tags from text without '<' changes nothing. */
  lemma {:induction false} RemoveTagsAbsent(text: string, tags: seq<string>)
    requires TagList(tags) && '<' !in text
    ensures RemoveTags(text, tags) == text
    decreases |tags|
  {
    if tags != [] {
      ReplaceAbsent(text, tags[0], "");
      RemoveTagsAbsent(text, tags[1..]);
    }
  }

  /** A body without brackets comes out only trimmed. */
  lemma StripPlain(s: string)
    requires NoBrackets(s)
    ensures StripHtmlSpec(s) == Trim(s)
  {
    ReplaceAbsent(s, "<br>", "\n");
    ReplaceAbsent(s, "<br/>", "\n");
    ReplaceAbsent(s, "<br />", "\n");
    BasicTagsAreTags();
    RemoveTagsAbsent(s, BasicTags);
    VisiblePlain(s, false);
  }

  // ---------------------------------------------------------------------------
  // `_smtp_send`
  // ---------------------------------------------------------------------------

  /** `os.getenv("EMAIL_FROM", user or "no-reply@example.com")`. */
  function EmailFrom(env: Environment): string {
    var user := Getenv(env, "SMTP_USER", "");
    Getenv(env, "EMAIL_FROM", if user != "" then user else "no-reply@example.com")
  }

  predicate Named(from: string) {
    '<' in from && '>' in from
  }

  /** The `From` header: a "Name <address>" value as it is, anything else as `Leads Bot <from>`. */
  function FromHeader(from: string): string {
    if Named(from) then from else "Leads Bot <" + from + ">"
  }

  /** The envelope sender: the text between the first '<' and the first '>', or the whole value. */
  function FromAddress(from: string): string {
    if Named(from) then
      var lo, hi := Find(from, '<') + 1, Find(from, '>');
      if lo <= hi then from[lo..hi] else ""
    else from
  }

  /** The address inside a "Name <address>" value is the envelope sender. */
  lemma FromAddressNamed(name: string, addr: string, rest: string)
    requires NoBrackets(name) && NoBrackets(addr)
    ensures FromAddress(name + "<" + addr + ">" + rest) == addr
  {
    var s := name + "<" + addr + ">" + rest;
    var lo := |name|;
    var hi := |name| + 1 + |addr|;
    assert s[lo] == '<' && s[hi] == '>';
    assert s[..lo] == name;
    assert s[..hi] == name + "<" + addr;
    assert Find(s, '<') == lo;
    assert Find(s, '>') == hi;
    assert s[lo + 1..hi] == addr;
  }

  /** The sender in the `From` header and the envelope sender agree for a bare address. */
  lemma FromHeaderRoundTrip(addr: string)
    requires NoBrackets(addr)
    ensures FromAddress(FromHeader(addr)) == addr
  {
    assert !Named(addr);
    FromAddressNamed("Leads Bot ", addr, "");
    assert "Leads Bot <" + addr + ">" == "Leads Bot " + "<" + addr + ">" + "";
  }

  /** A '>' before the first '<' gives an empty envelope sender. */
  lemma FromAddressReversed(a: string, b: string, c: string)
    requires NoBrackets(a) && NoBrackets(b)
    ensures FromAddress(a + ">" + b + "<" + c) == ""
  {
    var s := a + ">" + b + "<" + c;
    assert s[|a|] == '>' && s[..|a|] == a;
    assert s[|a| + 1 + |b|] == '<' && s[..|a| + 1 + |b|] == a + ">" + b;
  }

  datatype Message = Message(subject: string, from: string, to: seq<string>, text: string, html: string)

  /** How `_smtp_send` ends. `BadPort` is the ValueError of `int(SMTP_PORT)`, which propagates. */
  datatype SmtpRun =
    | Disabled
    | NoRecipients
    | BadPort
    | DryRun(sender: string, msg: Message)
    | Attempt(host: string, port: int, tls: bool, login: bool, sender: string, msg: Message, delivered: bool)

  /** The value returned to the caller; None when the call raises. */
  function Returned(run: SmtpRun): Option<bool> {
    match run
    case Disabled => Some(true)
    case NoRecipients => Some(false)
    case BadPort => None
    case DryRun(_, _) => Some(true)
    case Attempt(_, _, _, _, _, _, delivered) => Some(delivered)
  }

  /**
   * `_smtp_send(subject, html_body, to_list)`; `delivered` is whether the SMTP
   * session (connect, STARTTLS, login, sendmail) completes without raising.
   */
  function SmtpSendSpec(env: Environment, subject: string, html: string, toList: seq<string>, delivered: bool): SmtpRun {
    if !Flag(env, "EMAIL_ENABLED", 0) then Disabled
    else if toList == [] then NoRecipients
    else
      match ParseInt(Getenv(env, "SMTP_PORT", "587"))
      case None => BadPort
      case Some(port) =>
        var from := EmailFrom(env);
        var msg := Message(subject, FromHeader(from), toList, StripHtmlSpec(html), html);
        if Flag(env, "EMAIL_DRY_RUN", 0) then DryRun(FromAddress(from), msg)
        else
          var login := Getenv(env, "SMTP_USER", "") != "" && Getenv(env, "SMTP_PASS", "") != "";
          Attempt(Getenv(env, "SMTP_HOST", "smtp.gmail.com"), port, Flag(env, "SMTP_TLS", 1), login,
                  FromAddress(from), msg, delivered)
  }

  /**
   * The gates in order: disabled answers true and sends nothing; no
   * recipient answers false and sends nothing; dry-run answers true and
   * sends nothing.
   */
  lemma SmtpGates(env: Environment, subject: string, html: string, toList: seq<string>, delivered: bool)
    ensures var run := SmtpSendSpec(env, subject, html, toList, delivered);
      (!Flag(env, "EMAIL_ENABLED", 0) ==> Returned(run) == Some(true) && run.Disabled?) &&
      (Flag(env, "EMAIL_ENABLED", 0) && toList == [] ==> Returned(run) == Some(false) && run.NoRecipients?) &&
      (run.DryRun? ==> Flag(env, "EMAIL_DRY_RUN", 0) && Returned(run) == Some(true))
  {
  }

  /**
   * A session is opened exactly when sending is enabled, there is a
   * recipient, the port parses and dry-run is off; it goes to exactly the
   * given recipients from the envelope sender, and its outcome is the answer.
   */
  lemma SmtpAttempt(env: Environment, subject: string, html: string, toList: seq<string>, delivered: bool)
    ensures var run := SmtpSendSpec(env, subject, html, toList, delivered);
      (run.Attempt? <==>
         (Flag(env, "EMAIL_ENABLED", 0) && toList != [] &&
          ParseInt(Getenv(env, "SMTP_PORT", "587")).Some? && !Flag(env, "EMAIL_DRY_RUN", 0))) &&
      (run.Attempt? ==>
         (run.msg.to == toList && run.sender == FromAddress(EmailFrom(env)) && Returned(run) == Some(delivered)))
  {
  }

  /** `_smtp_send`, step by step with its early returns. */
  method SmtpSend(env: Environment, subject: string, html: string, toList: seq<string>, delivered: bool)
    returns (ok: Option<bool>, run: SmtpRun)
    ensures run == SmtpSendSpec(env, subject, html, toList, delivered) && ok == Returned(run)
  {
    if !Flag(env, "EMAIL_ENABLED", 0) {
      return Some(true), Disabled;
    }
    if toList == [] {
      return Some(false), NoRecipients;
    }
    var host := Getenv(env, "SMTP_HOST", "smtp.gmail.com");
    var port := ParseInt(Getenv(env, "SMTP_PORT", "587"));
    if port.None? {
      return None, BadPort;
    }
    var useTls := Flag(env, "SMTP_TLS", 1);
    var user := Getenv(env, "SMTP_USER", "");
    var pwd := Getenv(env, "SMTP_PASS", "");
    var emailFrom := EmailFrom(env);
    var textBody := StripHtml(html);
    var msg := Message(subject, FromHeader(emailFrom), toList, textBody, html);
    var fromAddr := FromAddress(emailFrom);
    if Flag(env, "EMAIL_DRY_RUN", 0) {
      return Some(true), DryRun(fromAddr, msg);
    }
    run := Attempt(host, port.value, useTls, user != "" && pwd != "", fromAddr, msg, delivered);
    ok := Some(delivered);
  }

  /**
   * `send_lead_email(record)` with the subject and HTML body given: the
   * deduplicated recipients go to `_smtp_send`. A lead with a usable address
   * is among the recipients of any session opened.
   */
  lemma LeadAddressReceives(env: Environment, rec: Record, subject: string, html: string, delivered: bool)
    requires UsableLeadEmail(LeadEmail(rec))
    ensures var run := SmtpSendSpec(env, subject, html, Uniq(Candidates(env, rec)), delivered);
      !run.NoRecipients? && (run.Attempt? ==> Lower(LeadEmail(rec)) in Keys(run.msg.to))
  {
    var u := Uniq(Candidates(env, rec));
    RecipientsFacts(env, rec);
    assert u != [];
    SmtpGates(env, subject, html, u, delivered);
    SmtpAttempt(env, subject, html, u, delivered);
  }

  /** The recipients of the legacy `send_email`: the given address alone, else the EMAIL_TO pieces. */
  function LegacyRecipients(env: Environment, toEmail: Option<string>): seq<string> {
    if toEmail.Some? && toEmail.value != "" then [Trim(toEmail.value)] else EnvRecipients(env)
  }

  /**
   * A given address replaces EMAIL_TO and is neither checked nor deduplicated:
   * even an all-space one yields one (empty) recipient, so the gate for an
   * empty list is passed. Without one, a blank EMAIL_TO leaves no recipient.
   */
  lemma LegacyRecipientsFacts(env: Environment, toEmail: Option<string>)
    ensures toEmail.Some? && toEmail.value != "" ==>
      |LegacyRecipients(env, toEmail)| == 1 && LegacyRecipients(env, toEmail)[0] == Trim(toEmail.value)
    ensures toEmail.Some? && toEmail.value != "" && IsBlank(toEmail.value) ==> LegacyRecipients(env, toEmail) == [""]
    ensures (toEmail.None? || toEmail.value == "") ==>
      forall x :: x in LegacyRecipients(env, toEmail) ==> x != "" && Trim(x) == x
  {
    if toEmail.Some? && toEmail.value != "" && IsBlank(toEmail.value) {
      TrimEmptyIff(toEmail.value);
    }
  }
}
