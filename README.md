# Bulk certificate mailer: a Dafny model of its dispatch core

`send_certificates.py` mails every delegate listed in a spreadsheet their
certificate of attendance through Outlook. It then writes a Word report and a
PDF report that list who was reached and who was not. This project models the
part of that script with real control flow:

- **Account selection.** The script lists the display names of the Outlook
  session's accounts and aborts if there are none. Otherwise it takes the
  operator's 1-based choice, aborts if that choice is out of range, and uses
  the chosen account as the sender.
- **The row loop.** For each row, in spreadsheet order, the script trims the
  Name and Email cells and builds the path `<certificate dir>\<name>.pdf`.
  If that file does not exist, it appends a "Certificate not found" failure
  and sends nothing. Otherwise it calls `send_email` once and appends a
  success or an "Email sending failed" failure, depending on the boolean
  returned.
- **`send_email`.** It builds and sends one Outlook message from the account
  with the chosen display name. Every exception becomes `False`. That
  includes the one raised when no account carries that name.
- **The two logs.** `success_log` and `failure_log` are module-level lists
  that are only ever appended to.
- **The two reports.** Each report has a title, a "Successfully Sent Emails"
  section with one `name - email` line per success, and a "Failed Emails"
  section with one `name - email - reason` line per failure. Each report is
  written to a fixed file name in the working directory.

Files:

- `wrappers.dfy`: Option and Result.
- `text.dfy`: Python's `str.strip()`.
- `outlook.dfy`: account enumeration, the account lookup and `send_email`'s
  exception-to-bool contract.
- `reports.dfy`: the lines of both reports and the loop that builds them.
- `dispatch.dfy`:
  - the selection check;
  - the certificate path and the email body;
  - the per-row decision and its specification over a whole spreadsheet;
  - class `Mailer`, which holds the module-level state and runs `main`.

The outside world is an input, the `Env` datatype:

- the Outlook session's accounts;
- the set of paths for which `os.path.exists` holds;
- `respond(k)`, what Outlook does with the k-th `send_email` call of the run.
  It either accepts the message or raises.

Rows are given as pairs of strings. The operator's choice is given as an
already-parsed integer.

The specification of the loop is a set of functions over the rows:

- `Records`: one record per row;
- `Sent`: the `send_email` calls made;
- `SuccessesOf` and `FailuresOf`: the entries each log receives.

`Mailer.ProcessRows` is proved to append exactly these entries to the fields
of the class. The lemmas beside these functions state the loop's laws:
partition, gating, dispatch outcome, order and fixed reasons.

The model follows the code in these places:

- A failed send is logged with the fixed reason "Email sending failed", not
  with a reason taken from the exception.
- Empty names or emails after trimming are not rejected.
- The logs are module globals and are never reset. A second call of `main`
  in the same process therefore appends to the first call's logs, and its
  reports include them. `Mailer.Run`, the model of `main`, states its effect relative to the old
  logs.
- `send_email` looks the sender up again by display name and takes the
  first match. If two accounts share a display name, choosing the second one
  sends from the first (`Outlook.DuplicateNameSendsFromFirst`).

## Model

| member | source | states |
|---|---|---|
| `Text.TrimStartShape` | send_certificates.py:133-134 | the leading-whitespace trim drops exactly the longest prefix of Python whitespace characters: what it drops is all whitespace, and what is left does not start with whitespace |
| `Text.TrimEndShape` | send_certificates.py:133-134 | the trailing-whitespace trim drops exactly the longest suffix of whitespace: what it drops is all whitespace, and what is left does not end with whitespace |
| `Text.Strip` | send_certificates.py:133-134 | trimming a cell never makes it longer |
| `Text.StripShape` | send_certificates.py:133-134 | `strip()` yields the infix of the cell between a whitespace prefix and a whitespace suffix, and that infix neither starts nor ends with whitespace |
| `Text.StripEmptyIffBlank` | send_certificates.py:133-134 | a cell strips to the empty string if and only if it is all whitespace |
| `Text.StripIdempotent` | send_certificates.py:133-134 | trimming an already trimmed name or email changes nothing |
| `Outlook.GetOutlookAccounts` | send_certificates.py:30-35 | the account list has one entry per session account, in session order, each being that account's display name |
| `Outlook.FirstNamed` | send_certificates.py:49-51 | the `next(...)` lookup finds the first account with the given display name, and reports none exactly when no account has it (the StopIteration case) |
| `Outlook.SendEmail` | send_certificates.py:39-56 | `send_email` returns True if and only if Outlook accepts the message and an account with the requested display name exists; every exception becomes False |
| `Outlook.SenderIsFirstWithName` | send_certificates.py:49-51 | the selected account's display name always resolves, to the first account carrying it, which is the selected account exactly when no earlier account shares its display name |
| `Outlook.DuplicateNameSendsFromFirst` | send_certificates.py:49-51 | with two accounts of the same display name, choosing the second one resolves to the first |
| `Dispatch.SelectAccount` | send_certificates.py:111-125 | an empty account list aborts with NoAccountsAvailable whatever the choice; otherwise choice k is accepted if and only if 1 <= k <= number of accounts, and then selects `accounts[k-1]`; every other k aborts with InvalidAccountSelection |
| `Dispatch.CertificatePath` | send_certificates.py:135 | the certificate path starts with the certificate directory, is followed by one `\` separator, then the name, and ends in ".pdf", so the name can be read back from the path |
| `Dispatch.CertificatePathNamesRecipient` | send_certificates.py:135 | within one directory, two names share a certificate path if and only if they are equal |
| `Dispatch.EmailBody` | send_certificates.py:139 | the body is the template with the recipient's name in place of `{name}`: the template text around the field is unchanged and the name can be read back from it |
| `Dispatch.Compose` | send_certificates.py:139-146 | the `send_email` call for a row comes from the selected account and carries the fixed subject. It is addressed to the row's trimmed Email cell. Its attachment is a file that exists exactly when the row's certificate exists. The row's trimmed name can be read back from both the attachment path and the body |
| `Dispatch.Decide` | send_certificates.py:133-153 | the record of one row carries the row's trimmed name and trimmed email |
| `Dispatch.Sent` | send_certificates.py:137-146 | the loop makes at most one `send_email` call per row |
| `Dispatch.Records` | send_certificates.py:132-153 | the loop yields exactly as many records as there are rows |
| `Dispatch.RecordsFollowRows` | send_certificates.py:132-134 | the i-th record belongs to the i-th row and carries its trimmed name and trimmed email |
| `Dispatch.SentOnlyExisting` | send_certificates.py:137-146 | every `send_email` call is made from the selected account and attaches a file that exists |
| `Dispatch.SuccessesOf` | send_certificates.py:147-148 | the success entries of a run of records number at most one per record |
| `Dispatch.FailuresOf` | send_certificates.py:149-153 | every failure entry's reason is "Certificate not found" or "Email sending failed" |
| `Dispatch.LogSplit` | send_certificates.py:147-153 | every record adds exactly one entry, to exactly one of the two logs |
| `Dispatch.PartitionLaw` | send_certificates.py:132-153 | the number of success entries plus failure entries equals the number of rows; duplicate rows are not merged |
| `Dispatch.RecordsPrefix` | send_certificates.py:132-153 | processing the first i rows yields the first i records and a prefix of the `send_email` calls, so a later row never changes an earlier outcome |
| `Dispatch.RecordAt` | send_certificates.py:132-153 | row i's record is the per-row decision taken after the `send_email` calls of rows 0..i-1 |
| `Dispatch.LoopStep` | send_certificates.py:132-153 | one turn of the loop appends row i's entry to exactly one log, and adds a `send_email` call exactly when its certificate exists |
| `Dispatch.AttachmentGating` | send_certificates.py:137-153 | row i gets the failure "Certificate not found" if and only if its certificate file is missing; then no `send_email` call is made for it, and otherwise exactly one call with its own message |
| `Dispatch.RecipientIsRecordEmail` | send_certificates.py:134-146 | when row i's certificate exists, the `send_email` call made for it is addressed to the email its log entry carries, the row's trimmed Email cell |
| `Dispatch.DispatchOutcome` | send_certificates.py:137-150 | for a row whose certificate exists, the row is a success if and only if `send_email` returned True, and a failure with reason "Email sending failed" if and only if it returned False |
| `Dispatch.SuccessesAppend` | send_certificates.py:147-148 | the success entries of two consecutive batches of records are those of the first followed by those of the second |
| `Dispatch.FailuresAppend` | send_certificates.py:149-153 | the failure entries of two consecutive batches of records are those of the first followed by those of the second |
| `Dispatch.LogsOnlyGrow` | send_certificates.py:132-153 | the logs after the first i rows are prefixes of the logs after all rows: the loop only appends, and each log keeps row order |
| `Dispatch.SendsAndMissingCoverRows` | send_certificates.py:137-153 | the number of `send_email` calls plus the number of "Certificate not found" records equals the number of rows: each row is sent once or logged as missing, never both |
| `Dispatch.AliceRow` | send_certificates.py:133-148 | a padded " Alice " row whose certificate exists and whose send is accepted is logged as the success ("Alice", "alice@x.com") |
| `Dispatch.BobRow` | send_certificates.py:133-153 | a "Bob" row whose certificate is missing is logged as ("Bob", "bob@x.com", "Certificate not found") |
| `Dispatch.AliceAndBob` | send_certificates.py:132-153 | with only Alice's certificate on disk, the success log is [Alice], the failure log is [Bob, "Certificate not found"], and the only `send_email` call is for Alice |
| `Dispatch.Mailer.constructor` | send_certificates.py:25-26 | both logs start empty, no report file has been written, and no call or row has been recorded |
| `Dispatch.Mailer.ProcessRow` | send_certificates.py:133-153 | one row appends exactly its entry to one log, calls `send_email` exactly when the certificate exists, and keeps the invariant that there is one entry per row handled and every failure has one of the two fixed reasons |
| `Dispatch.Mailer.ProcessRows` | send_certificates.py:132-153 | the loop appends to each log exactly that log's entries for the rows, in row order, and makes exactly the specified `send_email` calls |
| `Dispatch.Mailer.GenerateWordReport` | send_certificates.py:60-76 | Email_Report.docx is overwritten with the Word report of the given logs, and no other file changes |
| `Dispatch.Mailer.GeneratePdfReport` | send_certificates.py:80-105 | Email_Report.pdf is overwritten with the PDF report of the given logs, and no other file changes |
| `Dispatch.Mailer.Run` | send_certificates.py:109-157 | no accounts or an out-of-range choice aborts with that error and changes no log, call record or report file; otherwise the loop's entries are appended to the logs and both reports are written from the same final logs |
| `Reports.Report` | send_certificates.py:60-101 | a report has exactly three lines more than the two logs have entries: the title first, the success heading second, and the failure heading right after the success lines |
| `Reports.ReportLayout` | send_certificates.py:60-101 | the i-th success entry's `name - email` line follows the success heading at position i, and the j-th failure entry's `name - email - reason` line follows the failure heading at position j, so each section lists its log in order |
| `Reports.ReportEntries` | send_certificates.py:66-72 | the record lines of a report are exactly the success lines in log order followed by the failure lines in log order: nothing is added or omitted |
| `Reports.FormatsAgree` | send_certificates.py:60-101 | the Word report and the PDF report list the same record lines, in the same order |
| `Reports.RenderReport` | send_certificates.py:80-101 | the loops that add one paragraph or cell per record produce exactly the report's lines |

## Left out

- The Outlook automation layer is not modelled. The model does not open
  Outlook, create a mail item, set its fields or add the attachment, and it
  does not say whether a message left the machine when `Send()` raised. What
  Outlook does with a send request is the input `respond(k)`.
- The spreadsheet is not read. Rows are pairs of strings. A cell that is not
  a string, such as an empty cell read as NaN, makes `.strip()` raise and
  stops the script. The model does not cover this.
- Console input and output are not modelled. The prompt and the `int(...)`
  parse are outside the model, so non-numeric input, which stops the script
  with a ValueError, is not covered. The messages printed along the way are
  left out.
- File existence is an arbitrary set of paths. Because of this, a
  case-insensitive Windows file system is covered.
- `Dispatch.CertificatePath`: the path is modelled as
  `dir + "\" + name + ".pdf"`. It does not model the special case of
  `os.path.join` for a name that is itself absolute, one that starts with a
  separator or a drive letter. It also always inserts the separator, where
  `os.path.join` adds none after an empty directory, a bare drive such as
  `C:`, or a directory that already ends in `\` or `/`. The script's own
  certificate directory, `C:\Users\User\Downloads\certs`, is none of these,
  so for it the modelled path is exact.
- `Dispatch.EmailBody`: the body template is modelled as the text
  around its single `{name}` field. Other `str.format` fields and escapes do
  not occur in the script's template and are not modelled. Neither are the
  literal subject and body text.
- Document and PDF rendering is not modelled: fonts, sizes, alignment and the
  save calls. A report is its sequence of tagged lines. An error while
  writing a report file, including the PDF library's refusal of characters
  outside Latin-1, stops the script. The model does not cover this.
- The hard-coded Windows paths are not modelled. The certificate directory is
  part of the configuration input.
- Dispatch.Sent: its own contract only bounds the number of calls. Which
  calls are made, and in what order, is stated by `Dispatch.AttachmentGating`,
  `Dispatch.LoopStep` and `Dispatch.SentOnlyExisting`.
- Dispatch.Records: its own contract only fixes the number of records. What
  each record says is stated by `Dispatch.RecordsFollowRows`,
  `Dispatch.RecordAt`, `Dispatch.AttachmentGating` and
  `Dispatch.DispatchOutcome`.
- Dispatch.Decide: its own contract covers the name and the email. The
  outcome is stated by `Dispatch.AttachmentGating` and
  `Dispatch.DispatchOutcome`.
- Text.Strip: its own contract only bounds the length. What `strip()`
  removes is stated by `Text.StripShape`, `Text.TrimStartShape` and
  `Text.TrimEndShape`. Putting that into the function's contract makes
  every proof about the row loop carry it and run out of resource.
- Dispatch.SuccessesOf: its own contract only bounds the number of entries.
  That every record lands in exactly one log is `Dispatch.LogSplit`. Putting
  it into the function's contract makes the append lemmas run out of
  resource.
