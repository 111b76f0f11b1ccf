/**
 * The text of the two reports (generate_word_report, generate_pdf_report).
 * Fonts, sizes, alignment and the rendering libraries are not modelled:
 * a report is the sequence of its lines, each tagged with its role.
 */
module Reports {

  /** An entry of success_log: `{"name": ..., "email": ...}`. */
  datatype SuccessRecord = SuccessRecord(name: string, email: string)

  /** An entry of failure_log: `{"name": ..., "email": ..., "reason": ...}`. */
  datatype FailureRecord = FailureRecord(name: string, email: string, reason: string)

  datatype Format = Word | Pdf

  /** A level-1 heading / title cell, a level-2 heading / section cell, or one record's line. */
  datatype Line = Title(text: string) | Heading(text: string) | Entry(text: string)

  const ReportTitle := "Email Sending Report"

  function SuccessHeading(f: Format): string {
    if f == Word then "Successfully Sent Emails" else "Successfully Sent Emails:"
  }

  function FailureHeading(f: Format): string {
    if f == Word then "Failed Emails" else "Failed Emails:"
  }

  /** The fixed file each report is saved to, in the current working directory. */
  function FileName(f: Format): string {
    if f == Word then "Email_Report.docx" else "Email_Report.pdf"
  }

  function SuccessLine(r: SuccessRecord): string {
    r.name + " - " + r.email
  }

  function FailureLine(r: FailureRecord): string {
    r.name + " - " + r.email + " - " + r.reason
  }

  /** One entry line per success record, appended in log order. */
  function SuccessEntries(log: seq<SuccessRecord>): seq<Line> {
    if log == [] then [] else SuccessEntries(log[..|log| - 1]) + [Entry(SuccessLine(log[|log| - 1]))]
  }

  /** One entry line per failure record, appended in log order. */
  function FailureEntries(log: seq<FailureRecord>): seq<Line> {
    if log == [] then [] else FailureEntries(log[..|log| - 1]) + [Entry(FailureLine(log[|log| - 1]))]
  }

  /** The texts of the entry lines of a document, in document order. */
  function EntryTexts(doc: seq<Line>): seq<string> {
    if doc == [] then []
    else EntryTexts(doc[..|doc| - 1]) + (if doc[|doc| - 1].Entry? then [doc[|doc| - 1].text] else [])
  }

  lemma {:induction false} SuccessEntriesAt(log: seq<SuccessRecord>)
    ensures |SuccessEntries(log)| == |log|
    ensures forall i :: 0 <= i < |log| ==> SuccessEntries(log)[i] == Entry(SuccessLine(log[i]))
  {
    if log != [] {
      SuccessEntriesAt(log[..|log| - 1]);
    }
  }

  lemma {:induction false} FailureEntriesAt(log: seq<FailureRecord>)
    ensures |FailureEntries(log)| == |log|
    ensures forall i :: 0 <= i < |log| ==> FailureEntries(log)[i] == Entry(FailureLine(log[i]))
  {
    if log != [] {
      FailureEntriesAt(log[..|log| - 1]);
    }
  }

  /**
   * The lines of the report of format `f` over the two logs: the title, the
   * success heading, one line per success record, the failure heading at
   * 2 + |successes|, then one line per failure record.
   */
  function Report(f: Format, successes: seq<SuccessRecord>, failures: seq<FailureRecord>): (doc: seq<Line>)
    ensures |doc| == 3 + |successes| + |failures|
    ensures doc[0] == Title(ReportTitle) && doc[1] == Heading(SuccessHeading(f))
    ensures doc[2 + |successes|] == Heading(FailureHeading(f))
  {
    SuccessEntriesAt(successes);
    FailureEntriesAt(failures);
    [Title(ReportTitle), Heading(SuccessHeading(f))] + SuccessEntries(successes)
      + [Heading(FailureHeading(f))] + FailureEntries(failures)
  }

  /**
   * Layout of a report's record lines: the i-th success record's line at
   * 2 + i and the j-th failure record's line at 3 + |successes| + j.
   */
  lemma ReportLayout(f: Format, successes: seq<SuccessRecord>, failures: seq<FailureRecord>)
    ensures var doc := Report(f, successes, failures);
      && (forall i :: 0 <= i < |successes| ==> doc[2 + i] == Entry(SuccessLine(successes[i])))
      && (forall j :: 0 <= j < |failures| ==> doc[3 + |successes| + j] == Entry(FailureLine(failures[j])))
  {
    var doc, se, fe := Report(f, successes, failures), SuccessEntries(successes), FailureEntries(failures);
    var front := [Title(ReportTitle), Heading(SuccessHeading(f))] + se;
    assert doc == front + ([Heading(FailureHeading(f))] + fe);
    forall i | 0 <= i < |successes|
      ensures doc[2 + i] == Entry(SuccessLine(successes[i]))
    {
      SuccessEntriesAt(successes);
      assert doc[2 + i] == front[2 + i] == se[i];
    }
    forall j | 0 <= j < |failures|
      ensures doc[3 + |successes| + j] == Entry(FailureLine(failures[j]))
    {
      FailureEntriesAt(failures);
      assert doc[3 + |successes| + j] == fe[j];
    }
  }

  lemma {:induction false} EntryTextsAppend(a: seq<Line>, b: seq<Line>)
    ensures EntryTexts(a + b) == EntryTexts(a) + EntryTexts(b)
  {
    if b != [] {
      assert (a + b)[..|a + b| - 1] == a + b[..|b| - 1];
      EntryTextsAppend(a, b[..|b| - 1]);
    } else {
      assert a + b == a;
    }
  }

  lemma {:induction false} SuccessEntryTexts(log: seq<SuccessRecord>)
    ensures EntryTexts(SuccessEntries(log)) == seq(|log|, i requires 0 <= i < |log| => SuccessLine(log[i]))
  {
    if log != [] {
      var init := log[..|log| - 1];
      SuccessEntryTexts(init);
      EntryTextsAppend(SuccessEntries(init), [Entry(SuccessLine(log[|log| - 1]))]);
      assert EntryTexts([Entry(SuccessLine(log[|log| - 1]))]) == [SuccessLine(log[|log| - 1])] by {
        assert [Entry(SuccessLine(log[|log| - 1]))][..0] == [];
      }
    }
  }

  lemma {:induction false} FailureEntryTexts(log: seq<FailureRecord>)
    ensures EntryTexts(FailureEntries(log)) == seq(|log|, i requires 0 <= i < |log| => FailureLine(log[i]))
  {
    if log != [] {
      var init := log[..|log| - 1];
      FailureEntryTexts(init);
      EntryTextsAppend(FailureEntries(init), [Entry(FailureLine(log[|log| - 1]))]);
      assert EntryTexts([Entry(FailureLine(log[|log| - 1]))]) == [FailureLine(log[|log| - 1])] by {
        assert [Entry(FailureLine(log[|log| - 1]))][..0] == [];
      }
    }
  }

  /**
   * Report completeness: the record lines of a report are exactly one
   * `name - email` line per success record in log order, followed by one
   * `name - email - reason` line per failure record in log order.
   */
  lemma ReportEntries(f: Format, successes: seq<SuccessRecord>, failures: seq<FailureRecord>)
    ensures EntryTexts(Report(f, successes, failures))
         == seq(|successes|, i requires 0 <= i < |successes| => SuccessLine(successes[i]))
          + seq(|failures|, j requires 0 <= j < |failures| => FailureLine(failures[j]))
  {
    var head := [Title(ReportTitle), Heading(SuccessHeading(f))];
    var mid := [Heading(FailureHeading(f))];
    assert EntryTexts(head) == [] by {
      var title := [Title(ReportTitle)];
      assert head[..1] == title;
      assert title[..0] == [];
      assert EntryTexts(title) == [];
    }
    assert EntryTexts(mid) == [] by {
      assert mid[..0] == [];
    }
    EntryTextsAppend(head, SuccessEntries(successes));
    EntryTextsAppend(head + SuccessEntries(successes), mid);
    EntryTextsAppend(head + SuccessEntries(successes) + mid, FailureEntries(failures));
    SuccessEntryTexts(successes);
    FailureEntryTexts(failures);
  }

  /** The Word and the PDF report list the same records: they differ only in their headings. */
  lemma FormatsAgree(successes: seq<SuccessRecord>, failures: seq<FailureRecord>)
    ensures EntryTexts(Report(Word, successes, failures)) == EntryTexts(Report(Pdf, successes, failures))
  {
    ReportEntries(Word, successes, failures);
    ReportEntries(Pdf, successes, failures);
  }

  /**
   * The body of both report functions: the title, the success heading, a
   * line per success record, the failure heading, a line per failure record.
   */
  method RenderReport(f: Format, successes: seq<SuccessRecord>, failures: seq<FailureRecord>) returns (doc: seq<Line>)
    ensures doc == Report(f, successes, failures)
  {
    doc := [Title(ReportTitle), Heading(SuccessHeading(f))];
    ghost var head := doc;
    for i := 0 to |successes|
      invariant doc == head + SuccessEntries(successes[..i])
    {
      assert successes[..i + 1][..i] == successes[..i];
      doc := doc + [Entry(SuccessLine(successes[i]))];
    }
    assert successes[..|successes|] == successes;
    doc := doc + [Heading(FailureHeading(f))];
    head := doc;
    for j := 0 to |failures|
      invariant doc == head + FailureEntries(failures[..j])
    {
      assert failures[..j + 1][..j] == failures[..j];
      doc := doc + [Entry(FailureLine(failures[j]))];
    }
    assert failures[..|failures|] == failures;
  }
}
