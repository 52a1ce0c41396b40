/**
 * The upgrade command: check the data dictionary against the latest schema
 * (stop if it already conforms), then against the previous schema (stop if it
 * does not conform), transform it, check the result against the latest
 * schema (stop if it does not conform), and only then save it.
 *
 * The schema validator and the transformation are parameters: `validate`
 * gives the errors of a document against one of the two schemas, in the
 * validator's order, and `transform` gives the upgraded document or the text
 * of the exception it raised. Every call of the logger's `log_error` ends the
 * run with one error record and a non-zero exit; here it ends `Run` with an
 * error outcome.
 */
module Pipeline {
  import opened Text
  import opened Report

  /** The two schema versions the command knows. */
  datatype Schema = Previous | Latest

  /** What the transformation gives back: the upgraded document, or the text of its exception. */
  datatype Transformed<D> = Updated(doc: D) | Raised(reason: string)

  /** How a run ends. Every outcome except `Success` is an error exit carrying its logged message. */
  datatype Outcome<D> =
    | AlreadyCurrent(message: string)
    | TooLegacy(message: string)
    | InternalError(message: string)
    | TransformFailed(message: string)
    | Success(saved: D)

  datatype Level = Error | Info

  /** One record written to the log. */
  datatype LogRecord = LogRecord(level: Level, text: string)

  /** One request to write a document to the output path. */
  datatype SaveRequest<D> = SaveRequest(doc: D, path: string, overwrite: bool)

  const UpToDatePhrase := "already up-to-date"
  const UpToDateMessage := "Data dictionary is " + UpToDatePhrase + " with the latest schema."

  const NotValidPhrase := "not valid against the previous schema"
  const LegacyOpening := "The data dictionary is "
  const LegacyClosing :=
    " and may be too outdated to upgrade automatically. "
    + "Please re-annotate your dataset using the latest version of the annotation tool to continue.\n"
  const LegacyPreamble := LegacyOpening + NotValidPhrase + LegacyClosing

  // The next two messages are single literals in the command; they are split
  // here because the verifier does not look inside long string literals, and
  // MessagesDistinct needs their first characters.
  const InternalPreamble :=
    "Upgrading the data dictionary "
    + "resulted in unexpected validation errors against the latest schema.\n"

  const UnexpectedPrefix := "An unexpected error occurred " + "while upgrading the data dictionary: "

  const SuccessPrefix := "Successfully updated data dictionary. Output saved to "

  /** The error-count line that precedes a report. */
  function CountHeader(n: nat): (header: string)
    ensures Contains(header, IntToDecimal(n) + " error(s)")
    ensures header[|header| - 1] == '\n'
  {
    var count := IntToDecimal(n) + " error(s)";
    ContainsMiddle("Found ", count, ":\n");
    "Found " + count + ":\n"
  }

  /** What is logged when the document fails the previous schema. */
  function LegacyMessage(errors: seq<ValidationError>): (message: string)
    ensures Contains(message, IntToDecimal(|errors|) + " error(s)")
  {
    CountReported(LegacyPreamble, |errors|, FormatErrors(errors));
    LegacyPreamble + CountHeader(|errors|) + FormatErrors(errors)
  }

  /** What is logged when the upgraded document fails the latest schema. */
  function InternalMessage(errors: seq<ValidationError>): (message: string)
    ensures Contains(message, IntToDecimal(|errors|) + " error(s)")
  {
    CountReported(InternalPreamble, |errors|, FormatErrors(errors));
    InternalPreamble + CountHeader(|errors|) + FormatErrors(errors)
  }

  /** The outcome of a run, as a function of the document and the two collaborators. */
  function Classify<D>(
    doc: D,
    validate: (D, Schema) -> seq<ValidationError>,
    transform: D -> Transformed<D>
  ): (o: Outcome<D>)
    ensures o.AlreadyCurrent? <==> validate(doc, Latest) == []
    ensures o.Success? ==> transform(doc) == Updated(o.saved) && validate(o.saved, Latest) == []
  {
    if |validate(doc, Latest)| == 0 then AlreadyCurrent(UpToDateMessage)
    else if |validate(doc, Previous)| > 0 then TooLegacy(LegacyMessage(validate(doc, Previous)))
    else match transform(doc)
      case Raised(reason) => TransformFailed(UnexpectedPrefix + reason)
      case Updated(updated) =>
        if |validate(updated, Latest)| > 0 then InternalError(InternalMessage(validate(updated, Latest)))
        else Success(updated)
  }

  /** The one record a run leaves in the log. */
  function RecordOf<D>(o: Outcome<D>, output: string): (record: LogRecord)
    ensures record.level == Info <==> o.Success?
    ensures !o.Success? ==> record.text == o.message
  {
    if o.Success? then LogRecord(Info, SuccessPrefix + output) else LogRecord(Error, o.message)
  }

  /** The logger and the file system, as far as the command touches them. */
  class Effects<D> {
    var records: seq<LogRecord>
    var saves: seq<SaveRequest<D>>

    constructor ()
      ensures records == [] && saves == []
    {
      records := [];
      saves := [];
    }

    method Log(record: LogRecord)
      modifies this
      ensures records == old(records) + [record] && saves == old(saves)
    {
      records := records + [record];
    }

    method Save(request: SaveRequest<D>)
      modifies this
      ensures saves == old(saves) + [request] && records == old(records)
    {
      saves := saves + [request];
    }
  }

  /**
   * One run of the command on an already loaded document. It ends with
   * exactly one log record, and asks for the output to be written at most
   * once: on success, with the upgraded document.
   */
  method Run<D>(
    doc: D,
    validate: (D, Schema) -> seq<ValidationError>,
    transform: D -> Transformed<D>,
    output: string,
    overwrite: bool,
    io: Effects<D>
  ) returns (o: Outcome<D>)
    modifies io
    ensures o == Classify(doc, validate, transform)
    ensures io.records == old(io.records) + [RecordOf(o, output)]
    ensures io.saves == old(io.saves) + (if o.Success? then [SaveRequest(o.saved, output, overwrite)] else [])
  {
    if |validate(doc, Latest)| == 0 {
      o := AlreadyCurrent(UpToDateMessage);
      io.Log(LogRecord(Error, o.message));
      return;
    }

    var previousErrors := validate(doc, Previous);
    if |previousErrors| > 0 {
      var report := AccumulateReport(previousErrors);
      o := TooLegacy(LegacyPreamble + CountHeader(|previousErrors|) + report);
      io.Log(LogRecord(Error, o.message));
      return;
    }

    var transformed := transform(doc);
    if transformed.Raised? {
      o := TransformFailed(UnexpectedPrefix + transformed.reason);
      io.Log(LogRecord(Error, o.message));
      return;
    }
    var updated := transformed.doc;
    var latestErrors := validate(updated, Latest);
    if |latestErrors| > 0 {
      var report := AccumulateReport(latestErrors);
      o := InternalError(InternalPreamble + CountHeader(|latestErrors|) + report);
      io.Log(LogRecord(Error, o.message));
      return;
    }

    io.Save(SaveRequest(updated, output, overwrite));
    o := Success(updated);
    io.Log(LogRecord(Info, SuccessPrefix + output));
  }

  /**
   * The latest-schema check comes first: the run stops as already up-to-date
   * exactly when the document has no errors against the latest schema,
   * whatever the previous schema says; the logged message says so.
   */
  lemma UpToDateFirst<D>(doc: D, validate: (D, Schema) -> seq<ValidationError>, transform: D -> Transformed<D>)
    ensures var o := Classify(doc, validate, transform);
      && (o.AlreadyCurrent? <==> validate(doc, Latest) == [])
      && (o.AlreadyCurrent? ==> Contains(o.message, UpToDatePhrase))
  {
    ContainsMiddle("Data dictionary is ", UpToDatePhrase, " with the latest schema.");
  }

  /** A report message states its error count as "<count> error(s)". */
  lemma CountReported(preamble: string, n: nat, report: string)
    ensures Contains(preamble + CountHeader(n) + report, IntToDecimal(n) + " error(s)")
  {
    var count := IntToDecimal(n) + " error(s)";
    var before, after := preamble + "Found ", ":\n" + report;
    assert preamble + CountHeader(n) + report == before + count + after;
    ContainsMiddle(before, count, after);
  }

  /**
   * The run stops as too legacy exactly when the document fails both schemas;
   * the message then reports the count and the formatted errors of the
   * previous-schema check, and says the document is not valid against it.
   */
  lemma TooLegacyReport<D>(doc: D, validate: (D, Schema) -> seq<ValidationError>, transform: D -> Transformed<D>)
    ensures var o := Classify(doc, validate, transform);
      var errors := validate(doc, Previous);
      && (o.TooLegacy? <==> validate(doc, Latest) != [] && errors != [])
      && (o.TooLegacy? ==>
            && o.message == LegacyMessage(errors)
            && Contains(o.message, NotValidPhrase)
            && Contains(o.message, IntToDecimal(|errors|) + " error(s)"))
  {
    var errors := validate(doc, Previous);
    ContainsSecond(LegacyOpening, NotValidPhrase, LegacyClosing, CountHeader(|errors|), FormatErrors(errors));
  }

  /** A document with exactly two previous-schema errors is reported with "2 error(s)". */
  lemma TwoLegacyErrors<D>(doc: D, validate: (D, Schema) -> seq<ValidationError>, transform: D -> Transformed<D>)
    requires validate(doc, Latest) != [] && |validate(doc, Previous)| == 2
    ensures Classify(doc, validate, transform).TooLegacy?
    ensures Contains(Classify(doc, validate, transform).message, "2 error(s)")
  {
    var message := LegacyMessage(validate(doc, Previous));
    assert Contains(message, IntToDecimal(2) + " error(s)");
    assert Digit(2) == '2';
    assert NatToDecimal(2) == "2";
    assert IntToDecimal(2) + " error(s)" == "2 error(s)";
  }

  /**
   * The transformation is consulted only for a document that fails the latest
   * schema and passes the previous one: otherwise any two transformations
   * give the same outcome.
   */
  lemma TransformOnlyWhenNeeded<D>(
    doc: D,
    validate: (D, Schema) -> seq<ValidationError>,
    transform: D -> Transformed<D>,
    other: D -> Transformed<D>
  )
    requires validate(doc, Latest) == [] || validate(doc, Previous) != []
    ensures Classify(doc, validate, transform) == Classify(doc, validate, other)
  {
  }

  /**
   * After a successful transformation it is the upgraded document, not the
   * input, that is checked against the latest schema: the run succeeds with
   * it exactly when it has no errors, and otherwise reports an internal error
   * with the count and the formatted errors of that check.
   */
  lemma PostValidationReport<D>(doc: D, validate: (D, Schema) -> seq<ValidationError>, transform: D -> Transformed<D>)
    requires validate(doc, Latest) != [] && validate(doc, Previous) == []
    requires transform(doc).Updated?
    ensures var o := Classify(doc, validate, transform);
      var errors := validate(transform(doc).doc, Latest);
      && (o == Success(transform(doc).doc) <==> errors == [])
      && (o.InternalError? <==> errors != [])
      && (o.InternalError? ==>
            && o.message == InternalMessage(errors)
            && Contains(o.message, IntToDecimal(|errors|) + " error(s)"))
  {
  }

  /** An exception from the transformation ends the run with its own message carrying the exception text. */
  lemma TransformFailureReport<D>(doc: D, validate: (D, Schema) -> seq<ValidationError>, transform: D -> Transformed<D>)
    requires validate(doc, Latest) != [] && validate(doc, Previous) == []
    requires transform(doc).Raised?
    ensures var o := Classify(doc, validate, transform);
      && o == TransformFailed(UnexpectedPrefix + transform(doc).reason)
      && Contains(o.message, transform(doc).reason)
  {
    ContainsMiddle(UnexpectedPrefix, transform(doc).reason, "");
    assert UnexpectedPrefix + transform(doc).reason + "" == UnexpectedPrefix + transform(doc).reason;
  }

  /**
   * The four error messages can never be mistaken for one another: an
   * internal error is never reported as a legacy document, and so on.
   */
  lemma MessagesDistinct(a: seq<ValidationError>, b: seq<ValidationError>, reason: string)
    ensures LegacyMessage(a) != InternalMessage(b)
    ensures LegacyMessage(a) != UpToDateMessage && InternalMessage(b) != UpToDateMessage
    ensures UnexpectedPrefix + reason != LegacyMessage(a)
    ensures UnexpectedPrefix + reason != InternalMessage(b)
    ensures UnexpectedPrefix + reason != UpToDateMessage
  {
    assert LegacyPreamble[0] == 'T';
    assert LegacyMessage(a)[0] == LegacyPreamble[0];
    assert InternalPreamble[0] == 'U';
    assert InternalMessage(b)[0] == InternalPreamble[0];
    assert UpToDateMessage[0] == 'D';
    assert UnexpectedPrefix[0] == 'A';
    assert (UnexpectedPrefix + reason)[0] == UnexpectedPrefix[0];
  }

  /**
   * A run succeeds exactly when the document fails the latest schema, passes
   * the previous one, and transforms into a document with no latest-schema
   * errors; what it saves is that transformed document.
   */
  lemma SuccessIsCheckedTransform<D>(
    doc: D,
    validate: (D, Schema) -> seq<ValidationError>,
    transform: D -> Transformed<D>,
    saved: D
  )
    ensures Classify(doc, validate, transform) == Success(saved) <==>
      && validate(doc, Latest) != []
      && validate(doc, Previous) == []
      && transform(doc) == Updated(saved)
      && validate(saved, Latest) == []
  {
  }

  /** Running the command again on what a run saved stops as already up-to-date. */
  lemma RerunIsAlreadyCurrent<D>(
    doc: D,
    validate: (D, Schema) -> seq<ValidationError>,
    transform: D -> Transformed<D>,
    next: D -> Transformed<D>
  )
    requires Classify(doc, validate, transform).Success?
    ensures Classify(Classify(doc, validate, transform).saved, validate, next).AlreadyCurrent?
  {
  }
}
