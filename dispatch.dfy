/**
 * `main` of send_certificates.py: pick the sending account, then for every
 * spreadsheet row, in order, look for the recipient's certificate, send it
 * when it is there, and append one record to the success or the failure log;
 * finally write the Word and the PDF report of both logs.
 *
 * The outside world is an input (Env): the Outlook session's accounts, the
 * set of certificate paths that exist, and what Outlook does with the k-th
 * send request of the run.
 */
module Dispatch {
  import opened Wrappers
  import opened Text
  import opened Outlook
  import opened Reports

  const CertificateNotFound := "Certificate not found"
  const EmailSendingFailed := "Email sending failed"

  /** One spreadsheet row: the raw Name and Email cells. */
  datatype Row = Row(name: string, email: string)

  /** The email body template: the text before and after its single `{name}` field. */
  datatype Template = Template(before: string, after: string)

  /** CERTIFICATES_PATH, EMAIL_SUBJECT and EMAIL_BODY_TEMPLATE. */
  datatype Config = Config(certificateDir: string, subject: string, body: Template)

  /**
   * The world the run depends on: the Outlook session's accounts, the paths
   * for which `os.path.exists` holds, and Outlook's response to the k-th
   * send_email call of the run.
   */
  datatype Env = Env(config: Config, session: seq<Account>, existing: set<string>, respond: nat -> ClientResponse)

  datatype SetupError = NoAccountsAvailable | InvalidAccountSelection

  datatype RunOutcome = Completed | Aborted(error: SetupError)

  /** Why a row ended in failure_log. */
  datatype Cause = MissingCertificate | SendFailed

  /** The reason text failure_log stores for each cause. */
  function ReasonText(c: Cause): string {
    match c
    case MissingCertificate => CertificateNotFound
    case SendFailed => EmailSendingFailed
  }

  /** The outcome of one row: the entry it adds to success_log or to failure_log. */
  datatype Record =
    | Succeeded(name: string, email: string)
    | Failed(name: string, email: string, cause: Cause)

  /**
   * The account check and the operator's selection: no accounts aborts the
   * run whatever the operator would type; otherwise the 1-based ordinal
   * `choice` must lie in [1, |accounts|] and then picks `accounts[choice - 1]`.
   */
  function SelectAccount(accounts: seq<string>, choice: int): (r: Result<string, SetupError>)
    ensures r == Failure(NoAccountsAvailable) <==> accounts == []
    ensures r == Failure(InvalidAccountSelection) <==> accounts != [] && !(1 <= choice <= |accounts|)
    ensures r.Success? ==> 1 <= choice <= |accounts| && r.value == accounts[choice - 1]
  {
    if accounts == [] then Failure(NoAccountsAvailable)
    else
      var index := choice - 1;
      if index < 0 || index >= |accounts| then Failure(InvalidAccountSelection)
      else Success(accounts[index])
  }

  /**
   * `os.path.join(CERTIFICATES_PATH, f"{name}.pdf")`, with the Windows
   * separator: the file lies in the certificate directory, is named after the
   * recipient and ends in ".pdf", and the name can be read back from it.
   */
  function CertificatePath(dir: string, name: string): (p: string)
    ensures |p| == |dir| + |name| + 5
    ensures p[..|dir|] == dir && p[|dir|] == '\\' && p[|dir| + 1..|p| - 4] == name && p[|p| - 4..] == ".pdf"
  {
    var p := dir + "\\" + name + ".pdf";
    assert p[|dir| + 1..|p| - 4] == name;
    p
  }

  /** Within one directory, different names never share a certificate file. */
  lemma CertificatePathNamesRecipient(dir: string, a: string, b: string)
    ensures CertificatePath(dir, a) == CertificatePath(dir, b) <==> a == b
  {
  }

  /**
   * `EMAIL_BODY_TEMPLATE.format(name=name)`: the template with the
   * recipient's name in place of `{name}`, so the text around the field is
   * unchanged and the name can be read back from the body.
   */
  function EmailBody(t: Template, name: string): (body: string)
    ensures |body| == |t.before| + |name| + |t.after|
    ensures body[..|t.before|] == t.before && body[|t.before|..|body| - |t.after|] == name
    ensures body[|body| - |t.after|..] == t.after
  {
    var body := t.before + name + t.after;
    assert body[|t.before|..|body| - |t.after|] == name;
    body
  }

  /** Whether the row's certificate file exists. */
  predicate HasCertificate(env: Env, row: Row) {
    CertificatePath(env.config.certificateDir, Strip(row.name)) in env.existing
  }

  /** The send_email call made for a row whose certificate exists. */
  function Compose(env: Env, account: string, row: Row): (msg: Message)
    ensures msg.accountName == account && msg.subject == env.config.subject
    ensures msg.to == Strip(row.email) && Strip(msg.to) == msg.to
    ensures msg.attachment in env.existing <==> HasCertificate(env, row)
    ensures var name, dir, t := Strip(row.name), env.config.certificateDir, env.config.body;
      && |msg.attachment| == |dir| + |name| + 5 && msg.attachment[|dir| + 1..|msg.attachment| - 4] == name
      && |msg.body| == |t.before| + |name| + |t.after| && msg.body[|t.before|..|msg.body| - |t.after|] == name
  {
    var name := Strip(row.name);
    StripIdempotent(row.email);
    Message(account, Strip(row.email), env.config.subject, EmailBody(env.config.body, name),
            CertificatePath(env.config.certificateDir, name))
  }

  /** One step of the row loop, when `k` send_email calls have been made before it in this run. */
  function Decide(env: Env, account: string, row: Row, k: nat): (r: Record)
    ensures r.name == Strip(row.name) && r.email == Strip(row.email)
  {
    var name := Strip(row.name);
    var email := Strip(row.email);
    if HasCertificate(env, row) then
      if SendEmail(env.session, Compose(env, account, row), env.respond(k)) then Succeeded(name, email)
      else Failed(name, email, SendFailed)
    else Failed(name, email, MissingCertificate)
  }

  /** The send_email calls the loop makes over `rows`, in call order. */
  function Sent(env: Env, account: string, rows: seq<Row>): (msgs: seq<Message>)
    ensures |msgs| <= |rows|
  {
    if rows == [] then []
    else
      var last := rows[|rows| - 1];
      Sent(env, account, rows[..|rows| - 1])
        + (if HasCertificate(env, last) then [Compose(env, account, last)] else [])
  }

  /** The record of each row, in row order. */
  function Records(env: Env, account: string, rows: seq<Row>): (rs: seq<Record>)
    ensures |rs| == |rows|
  {
    if rows == [] then []
    else
      var init := rows[..|rows| - 1];
      Records(env, account, init) + [Decide(env, account, rows[|rows| - 1], |Sent(env, account, init)|)]
  }

  /** What a record appends to success_log: its entry, or nothing. */
  function SuccessPart(r: Record): seq<SuccessRecord> {
    if r.Succeeded? then [SuccessRecord(r.name, r.email)] else []
  }

  /** What a record appends to failure_log: its entry, or nothing. */
  function FailurePart(r: Record): seq<FailureRecord> {
    if r.Failed? then [FailureRecord(r.name, r.email, ReasonText(r.cause))] else []
  }

  /** The failure_log entries among `rs`, in order: each carries one of the two fixed reasons. */
  function FailuresOf(rs: seq<Record>): (log: seq<FailureRecord>)
    ensures forall f :: f in log ==> f.reason == CertificateNotFound || f.reason == EmailSendingFailed
  {
    if rs == [] then [] else FailuresOf(rs[..|rs| - 1]) + FailurePart(rs[|rs| - 1])
  }

  /** The success_log entries among `rs`, in order: at most one per record. */
  function SuccessesOf(rs: seq<Record>): (log: seq<SuccessRecord>)
    ensures |log| <= |rs|
  {
    if rs == [] then [] else SuccessesOf(rs[..|rs| - 1]) + SuccessPart(rs[|rs| - 1])
  }

  /** How many records are "Certificate not found" failures. */
  function MissingCount(rs: seq<Record>): nat {
    if rs == [] then 0
    else
      var r := rs[|rs| - 1];
      MissingCount(rs[..|rs| - 1]) + (if r.Failed? && r.cause == MissingCertificate then 1 else 0)
  }

  /**
   * Every send_email call is made from the selected account, with an
   * attachment whose file exists.
   */
  lemma {:induction false} SentOnlyExisting(env: Env, account: string, rows: seq<Row>)
    ensures forall m :: m in Sent(env, account, rows) ==> m.attachment in env.existing && m.accountName == account
  {
    if rows != [] {
      SentOnlyExisting(env, account, rows[..|rows| - 1]);
    }
  }

  /** Every record lands in exactly one of the two logs. */
  lemma {:induction false} LogSplit(rs: seq<Record>)
    ensures |SuccessesOf(rs)| + |FailuresOf(rs)| == |rs|
  {
    if rs != [] {
      LogSplit(rs[..|rs| - 1]);
    }
  }

  /**
   * Partition law: every row, duplicates included, yields exactly one record,
   * in exactly one of the two logs.
   */
  lemma PartitionLaw(env: Env, account: string, rows: seq<Row>)
    ensures |SuccessesOf(Records(env, account, rows))| + |FailuresOf(Records(env, account, rows))| == |rows|
  {
    LogSplit(Records(env, account, rows));
  }

  /** Processing a prefix of the rows gives a prefix of the records and of the send calls. */
  lemma {:induction false} RecordsPrefix(env: Env, account: string, rows: seq<Row>, i: nat)
    requires i <= |rows|
    ensures Records(env, account, rows[..i]) == Records(env, account, rows)[..i]
    ensures Sent(env, account, rows[..i]) <= Sent(env, account, rows)
    decreases |rows|
  {
    if i < |rows| {
      var init := rows[..|rows| - 1];
      assert init[..i] == rows[..i];
      RecordsPrefix(env, account, init, i);
    } else {
      assert rows[..i] == rows;
    }
  }

  /** The record of row i is the loop step taken after the send calls of rows 0..i-1. */
  lemma RecordAt(env: Env, account: string, rows: seq<Row>, i: nat)
    requires i < |rows|
    ensures Records(env, account, rows)[i] == Decide(env, account, rows[i], |Sent(env, account, rows[..i])|)
  {
    RecordsPrefix(env, account, rows, i + 1);
    assert rows[..i + 1][..i] == rows[..i];
  }

  /** Every row yields exactly one record, in row order, carrying the row's trimmed name and email. */
  lemma RecordsFollowRows(env: Env, account: string, rows: seq<Row>)
    ensures |Records(env, account, rows)| == |rows|
    ensures forall i :: 0 <= i < |rows| ==>
      Records(env, account, rows)[i].name == Strip(rows[i].name) && Records(env, account, rows)[i].email == Strip(rows[i].email)
  {
    forall i | 0 <= i < |rows|
      ensures Records(env, account, rows)[i].name == Strip(rows[i].name)
      ensures Records(env, account, rows)[i].email == Strip(rows[i].email)
    {
      RecordAt(env, account, rows, i);
    }
  }

  /**
   * One turn of the row loop: row i adds its own record, and a send_email
   * call exactly when its certificate exists, to what rows 0..i-1 produced.
   */
  lemma LoopStep(env: Env, account: string, rows: seq<Row>, i: nat)
    requires i < |rows|
    ensures var d := Decide(env, account, rows[i], |Sent(env, account, rows[..i])|);
      var before := Records(env, account, rows[..i]);
      && SuccessesOf(Records(env, account, rows[..i + 1])) == SuccessesOf(before) + SuccessPart(d)
      && FailuresOf(Records(env, account, rows[..i + 1])) == FailuresOf(before) + FailurePart(d)
      && Sent(env, account, rows[..i + 1])
         == Sent(env, account, rows[..i]) + (if HasCertificate(env, rows[i]) then [Compose(env, account, rows[i])] else [])
  {
    assert rows[..i + 1][..i] == rows[..i];
    var rs := Records(env, account, rows[..i + 1]);
    assert rs[..|rs| - 1] == Records(env, account, rows[..i]);
  }

  /**
   * Attachment gating: row i gets the failure "Certificate not found"
   * exactly when its certificate file is missing, and then no send_email
   * call is made for it; when the file exists exactly one call is made,
   * with the row's own message.
   */
  lemma AttachmentGating(env: Env, account: string, rows: seq<Row>, i: nat)
    requires i < |rows|
    ensures !HasCertificate(env, rows[i])
        <==> Records(env, account, rows)[i] == Failed(Strip(rows[i].name), Strip(rows[i].email), MissingCertificate)
    ensures !HasCertificate(env, rows[i]) ==> Sent(env, account, rows[..i + 1]) == Sent(env, account, rows[..i])
    ensures HasCertificate(env, rows[i]) ==> Sent(env, account, rows[..i + 1]) == Sent(env, account, rows[..i]) + [Compose(env, account, rows[i])]
  {
    RecordAt(env, account, rows, i);
    assert rows[..i + 1][..i] == rows[..i];
  }

  /**
   * The send_email call made for row i, when its certificate exists, is
   * addressed to the email its record carries: the row's trimmed Email cell.
   */
  lemma RecipientIsRecordEmail(env: Env, account: string, rows: seq<Row>, i: nat)
    requires i < |rows| && HasCertificate(env, rows[i])
    ensures var k := |Sent(env, account, rows[..i])|;
      && k < |Sent(env, account, rows[..i + 1])|
      && Sent(env, account, rows[..i + 1])[k].to == Records(env, account, rows)[i].email == Strip(rows[i].email)
  {
    AttachmentGating(env, account, rows, i);
    RecordsFollowRows(env, account, rows);
  }

  /**
   * Dispatch outcome: a row whose certificate exists is a success exactly
   * when send_email returns True for its call, and otherwise a failure with
   * the reason "Email sending failed".
   */
  lemma DispatchOutcome(env: Env, account: string, rows: seq<Row>, i: nat)
    requires i < |rows| && HasCertificate(env, rows[i])
    ensures var ok := SendEmail(env.session, Compose(env, account, rows[i]), env.respond(|Sent(env, account, rows[..i])|));
      && (ok <==> Records(env, account, rows)[i] == Succeeded(Strip(rows[i].name), Strip(rows[i].email)))
      && (!ok <==> Records(env, account, rows)[i] == Failed(Strip(rows[i].name), Strip(rows[i].email), SendFailed))
  {
    RecordAt(env, account, rows, i);
  }

  lemma {:induction false} SuccessesAppend(a: seq<Record>, b: seq<Record>)
    ensures SuccessesOf(a + b) == SuccessesOf(a) + SuccessesOf(b)
  {
    if b == [] {
      assert a + b == a;
    } else {
      assert (a + b)[..|a + b| - 1] == a + b[..|b| - 1];
      SuccessesAppend(a, b[..|b| - 1]);
    }
  }

  lemma {:induction false} FailuresAppend(a: seq<Record>, b: seq<Record>)
    ensures FailuresOf(a + b) == FailuresOf(a) + FailuresOf(b)
  {
    if b == [] {
      assert a + b == a;
    } else {
      assert (a + b)[..|a + b| - 1] == a + b[..|b| - 1];
      FailuresAppend(a, b[..|b| - 1]);
    }
  }

  /**
   * Order preservation: the logs after the first i rows are prefixes of the
   * logs after all rows, so later rows only append, and each log lists its
   * records in row order.
   */
  lemma LogsOnlyGrow(env: Env, account: string, rows: seq<Row>, i: nat)
    requires i <= |rows|
    ensures SuccessesOf(Records(env, account, rows[..i])) <= SuccessesOf(Records(env, account, rows))
    ensures FailuresOf(Records(env, account, rows[..i])) <= FailuresOf(Records(env, account, rows))
  {
    var rs := Records(env, account, rows);
    RecordsPrefix(env, account, rows, i);
    assert rs == rs[..i] + rs[i..];
    SuccessesAppend(rs[..i], rs[i..]);
    FailuresAppend(rs[..i], rs[i..]);
  }

  /**
   * Every row either causes exactly one send_email call or is logged as
   * "Certificate not found", never both and never neither.
   */
  lemma {:induction false} SendsAndMissingCoverRows(env: Env, account: string, rows: seq<Row>)
    ensures |Sent(env, account, rows)| + MissingCount(Records(env, account, rows)) == |rows|
  {
    if rows != [] {
      var init := rows[..|rows| - 1];
      SendsAndMissingCoverRows(env, account, init);
      var rs := Records(env, account, rows);
      assert rs[..|rs| - 1] == Records(env, account, init);
    }
  }

  /** The trimmed cells of AliceAndBob's first row. */
  lemma AliceCells()
    ensures Strip(" Alice ") == "Alice" && Strip("alice@x.com") == "alice@x.com"
  {
    assert TrimStart(" Alice ") == TrimStart("Alice ") == "Alice ";
    assert TrimEnd("Alice ") == TrimEnd("Alice") == "Alice";
    assert TrimStart("alice@x.com") == "alice@x.com";
    assert TrimEnd("alice@x.com") == "alice@x.com";
  }

  /** The trimmed cells of AliceAndBob's second row. */
  lemma BobCells()
    ensures Strip("Bob") == "Bob" && Strip(" bob@x.com") == "bob@x.com"
  {
    assert TrimStart("Bob") == "Bob";
    assert TrimEnd("Bob") == "Bob";
    assert TrimStart(" bob@x.com") == TrimStart("bob@x.com") == "bob@x.com";
    assert TrimEnd("bob@x.com") == "bob@x.com";
  }

  /** The first row of AliceAndBob: its certificate exists and Outlook accepts it. */
  lemma AliceRow(env: Env, account: string)
    requires env.existing == {CertificatePath(env.config.certificateDir, "Alice")}
    requires env.session == [Account(account)]
    requires env.respond(0) == Accepted
    ensures HasCertificate(env, Row(" Alice ", "alice@x.com"))
    ensures Decide(env, account, Row(" Alice ", "alice@x.com"), 0) == Succeeded("Alice", "alice@x.com")
  {
    AliceCells();
    assert SendEmail(env.session, Compose(env, account, Row(" Alice ", "alice@x.com")), env.respond(0)) by {
      assert env.session[0].displayName == account;
    }
  }

  /** The second row of AliceAndBob: its certificate is missing. */
  lemma BobRow(env: Env, account: string)
    requires env.existing == {CertificatePath(env.config.certificateDir, "Alice")}
    ensures !HasCertificate(env, Row("Bob", " bob@x.com"))
    ensures Decide(env, account, Row("Bob", " bob@x.com"), 1) == Failed("Bob", "bob@x.com", MissingCertificate)
  {
    BobCells();
    assert CertificatePath(env.config.certificateDir, "Bob") != CertificatePath(env.config.certificateDir, "Alice") by {
      CertificatePathNamesRecipient(env.config.certificateDir, "Bob", "Alice");
      assert "Bob" != "Alice" by {
        assert "Bob"[0] != "Alice"[0];
      }
    }
  }

  /** The records and send_email calls of AliceAndBob's two rows. */
  lemma AliceAndBobRecords(env: Env, account: string)
    requires env.existing == {CertificatePath(env.config.certificateDir, "Alice")}
    requires env.session == [Account(account)]
    requires env.respond(0) == Accepted
    ensures var rows := [Row(" Alice ", "alice@x.com"), Row("Bob", " bob@x.com")];
      && Records(env, account, rows)
         == [Succeeded("Alice", "alice@x.com"), Failed("Bob", "bob@x.com", MissingCertificate)]
      && Sent(env, account, rows) == [Compose(env, account, rows[0])]
  {
    var rows := [Row(" Alice ", "alice@x.com"), Row("Bob", " bob@x.com")];
    AliceRow(env, account);
    BobRow(env, account);
    var first := rows[..1];
    assert Records(env, account, first) == [Decide(env, account, rows[0], 0)]
        && Sent(env, account, first) == [Compose(env, account, rows[0])] by {
      assert first == [rows[0]] && first[..0] == [];
    }
    assert rows[..|rows| - 1] == first;
  }

  /**
   * Two recipients, only Alice's certificate on disk, Outlook accepting the
   * one send request: Alice is logged as sent, Bob as "Certificate not
   * found", and exactly one send_email call is made, for Alice.
   */
  lemma AliceAndBob(env: Env, account: string)
    requires env.existing == {CertificatePath(env.config.certificateDir, "Alice")}
    requires env.session == [Account(account)]
    requires env.respond(0) == Accepted
    ensures var rows := [Row(" Alice ", "alice@x.com"), Row("Bob", " bob@x.com")];
      var rs := Records(env, account, rows);
      && SuccessesOf(rs) == [SuccessRecord("Alice", "alice@x.com")]
      && FailuresOf(rs) == [FailureRecord("Bob", "bob@x.com", CertificateNotFound)]
      && Sent(env, account, rows) == [Compose(env, account, rows[0])]
  {
    AliceAndBobRecords(env, account);
    AliceAndBobLogs();
  }

  /** The log entries of AliceAndBob's two records. */
  lemma AliceAndBobLogs()
    ensures var rs := [Succeeded("Alice", "alice@x.com"), Failed("Bob", "bob@x.com", MissingCertificate)];
      && SuccessesOf(rs) == [SuccessRecord("Alice", "alice@x.com")]
      && FailuresOf(rs) == [FailureRecord("Bob", "bob@x.com", CertificateNotFound)]
  {
    var a, b := Succeeded("Alice", "alice@x.com"), Failed("Bob", "bob@x.com", MissingCertificate);
    assert [a, b][..1] == [a] && [a][..0] == [];
    assert SuccessesOf([a]) == SuccessPart(a) && FailuresOf([a]) == FailurePart(a);
    assert SuccessesOf([a, b]) == SuccessPart(a) + SuccessPart(b);
    assert FailuresOf([a, b]) == FailurePart(a) + FailurePart(b);
  }

  lemma Associative<T>(a: seq<T>, b: seq<T>, c: seq<T>)
    ensures (a + b) + c == a + (b + c)
  {
  }

  lemma TakeOneMore<T>(s: seq<T>, i: nat)
    requires i < |s|
    ensures s[..i + 1] == s[..i] + [s[i]]
  {
  }

  /**
   * The module-level state of send_certificates.py: the two logs, the files
   * the reports are written to, and (ghost) the send_email calls made and the
   * rows handled so far. The logs are never reset, so a second `main` in the
   * same process appends to them.
   */
  class Mailer {
    var successLog: seq<SuccessRecord>
    var failureLog: seq<FailureRecord>
    var reportFiles: map<string, seq<Line>>
    ghost var dispatched: seq<Message>
    ghost var processed: seq<Row>

    /** One record per row handled, and every failure carries one of the two fixed reasons. */
    ghost predicate Valid()
      reads this
    {
      && |successLog| + |failureLog| == |processed|
      && forall f :: f in failureLog ==> f.reason == CertificateNotFound || f.reason == EmailSendingFailed
    }

    constructor ()
      ensures Valid()
      ensures successLog == [] && failureLog == [] && reportFiles == map[]
      ensures dispatched == [] && processed == []
    {
      successLog, failureLog, reportFiles := [], [], map[];
      dispatched, processed := [], [];
    }

    /** generate_word_report: (over)writes Email_Report.docx with the report of the given logs. */
    method GenerateWordReport(successes: seq<SuccessRecord>, failures: seq<FailureRecord>)
      modifies this`reportFiles
      ensures reportFiles == old(reportFiles)[FileName(Word) := Report(Word, successes, failures)]
    {
      var doc := RenderReport(Word, successes, failures);
      reportFiles := reportFiles[FileName(Word) := doc];
    }

    /** generate_pdf_report: (over)writes Email_Report.pdf with the report of the given logs. */
    method GeneratePdfReport(successes: seq<SuccessRecord>, failures: seq<FailureRecord>)
      modifies this`reportFiles
      ensures reportFiles == old(reportFiles)[FileName(Pdf) := Report(Pdf, successes, failures)]
    {
      var doc := RenderReport(Pdf, successes, failures);
      reportFiles := reportFiles[FileName(Pdf) := doc];
    }

    /**
     * The body of the `for` loop, for one row, when `calls` send_email calls
     * have been made before it in this run: trim, build the certificate path,
     * and either log "Certificate not found" or send and log the result.
     */
    method ProcessRow(env: Env, account: string, row: Row, calls: nat) returns (sentOne: bool)
      requires Valid()
      modifies this`successLog, this`failureLog, this`dispatched, this`processed
      ensures Valid()
      ensures sentOne == HasCertificate(env, row)
      ensures successLog == old(successLog) + SuccessPart(Decide(env, account, row, calls))
      ensures failureLog == old(failureLog) + FailurePart(Decide(env, account, row, calls))
      ensures dispatched == old(dispatched) + (if sentOne then [Compose(env, account, row)] else [])
      ensures processed == old(processed) + [row]
    {
      var name := Strip(row.name);
      var email := Strip(row.email);
      var path := CertificatePath(env.config.certificateDir, name);
      sentOne := path in env.existing;
      if sentOne {
        var body := EmailBody(env.config.body, name);
        var msg := Message(account, email, env.config.subject, body, path);
        var success := SendEmail(env.session, msg, env.respond(calls));
        dispatched := dispatched + [msg];
        if success {
          successLog := successLog + [SuccessRecord(name, email)];
        } else {
          failureLog := failureLog + [FailureRecord(name, email, EmailSendingFailed)];
        }
      } else {
        failureLog := failureLog + [FailureRecord(name, email, CertificateNotFound)];
      }
      processed := processed + [row];
    }

    /** The `for` loop over the spreadsheet rows, sending from `account`. */
    method ProcessRows(env: Env, account: string, rows: seq<Row>)
      requires Valid()
      modifies this`successLog, this`failureLog, this`dispatched, this`processed
      ensures Valid()
      ensures successLog == old(successLog) + SuccessesOf(Records(env, account, rows))
      ensures failureLog == old(failureLog) + FailuresOf(Records(env, account, rows))
      ensures dispatched == old(dispatched) + Sent(env, account, rows)
      ensures processed == old(processed) + rows
    {
      var calls := 0;
      for i := 0 to |rows|
        invariant Valid()
        invariant successLog == old(successLog) + SuccessesOf(Records(env, account, rows[..i]))
        invariant failureLog == old(failureLog) + FailuresOf(Records(env, account, rows[..i]))
        invariant dispatched == old(dispatched) + Sent(env, account, rows[..i])
        invariant calls == |Sent(env, account, rows[..i])|
        invariant processed == old(processed) + rows[..i]
      {
        ghost var d := Decide(env, account, rows[i], calls);
        ghost var before := Records(env, account, rows[..i]);
        ghost var sent := Sent(env, account, rows[..i]);
        var sentOne := ProcessRow(env, account, rows[i], calls);
        if sentOne {
          calls := calls + 1;
        }
        LoopStep(env, account, rows, i);
        Associative(old(successLog), SuccessesOf(before), SuccessPart(d));
        Associative(old(failureLog), FailuresOf(before), FailurePart(d));
        Associative(old(dispatched), sent, if sentOne then [Compose(env, account, rows[i])] else []);
        TakeOneMore(rows, i);
        Associative(old(processed), rows[..i], [rows[i]]);
      }
      assert rows[..|rows|] == rows;
    }

    /**
     * main: enumerate the accounts, abort if there are none or if the
     * operator's choice is out of range, else process every row and write
     * both reports from the (global) logs.
     */
    method Run(env: Env, choice: int, rows: seq<Row>) returns (outcome: RunOutcome)
      requires Valid()
      modifies this
      ensures Valid()
      ensures outcome == Aborted(NoAccountsAvailable) <==> env.session == []
      ensures outcome == Aborted(InvalidAccountSelection) <==> env.session != [] && !(1 <= choice <= |env.session|)
      ensures outcome.Aborted? ==>
        && successLog == old(successLog) && failureLog == old(failureLog)
        && dispatched == old(dispatched) && processed == old(processed)
        && reportFiles == old(reportFiles)
      ensures outcome == Completed ==>
        && 1 <= choice <= |env.session|
        && var account := env.session[choice - 1].displayName;
        && successLog == old(successLog) + SuccessesOf(Records(env, account, rows))
        && failureLog == old(failureLog) + FailuresOf(Records(env, account, rows))
        && dispatched == old(dispatched) + Sent(env, account, rows)
        && processed == old(processed) + rows
        && reportFiles == old(reportFiles)[FileName(Word) := Report(Word, successLog, failureLog)]
                                          [FileName(Pdf) := Report(Pdf, successLog, failureLog)]
    {
      var accounts := GetOutlookAccounts(env.session);
      var selection := SelectAccount(accounts, choice);
      if selection.Failure? {
        return Aborted(selection.error);
      }
      var account := selection.value;
      ProcessRows(env, account, rows);
      GenerateWordReport(successLog, failureLog);
      GeneratePdfReport(successLog, failureLog);
      return Completed;
    }
  }
}
