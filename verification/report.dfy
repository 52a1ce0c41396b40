/**
 * Validation errors as the schema validator reports them, and the text report
 * the upgrade command logs for a list of them: one line per error,
 * " -> " + the error's path joined with "." + ": " + the message + a newline.
 */
module Report {
  import opened Text

  /** One step of an error's location in the document: an object key or an array index. */
  datatype PathElement = Key(name: string) | Index(position: int)

  /** One validation error: where it is and what is wrong. */
  datatype ValidationError = ValidationError(path: seq<PathElement>, message: string)

  /** `str(element)`. */
  function ElementText(e: PathElement): (text: string)
  {
    match e
    case Key(name) => name
    case Index(position) => IntToDecimal(position)
  }

  /** `map(str, path)`. */
  function PathTexts(path: seq<PathElement>): (r: seq<string>)
    ensures |r| == |path|
    ensures forall k :: 0 <= k < |path| ==> r[k] == ElementText(path[k])
  {
    if |path| == 0 then [] else [ElementText(path[0])] + PathTexts(path[1..])
  }

  /** `".".join(map(str, path))`. */
  function JoinPath(path: seq<PathElement>): (joined: string)
  {
    Join(PathTexts(path), '.')
  }

  /** A report line without its terminating newline. */
  function LineBody(e: ValidationError): (body: string)
  {
    " -> " + JoinPath(e.path) + ": " + e.message
  }

  /** The report line for one error. */
  function FormatLine(e: ValidationError): (line: string)
    ensures |line| >= 5 && line[..4] == " -> " && line[|line| - 1] == '\n'
  {
    LineBody(e) + "\n"
  }

  /**
   * The report for a list of errors: the lines of the errors, in the
   * validator's order (built by appending one line per error).
   */
  function FormatErrors(errors: seq<ValidationError>): (report: string)
    ensures report == "" <==> errors == []
  {
    if |errors| == 0 then ""
    else FormatErrors(errors[..|errors| - 1]) + FormatLine(errors[|errors| - 1])
  }

  /**
   * Builds the report the way the command does: starting from the empty
   * string and appending each error's line in turn.
   */
  method AccumulateReport(errors: seq<ValidationError>) returns (report: string)
    ensures report == FormatErrors(errors)
  {
    report := "";
    for i := 0 to |errors|
      invariant report == FormatErrors(errors[..i])
    {
      report := report + " -> " + JoinPath(errors[i].path) + ": " + errors[i].message + "\n";
      assert errors[..i + 1][..i] == errors[..i];
    }
    assert errors[..|errors|] == errors;
  }

  /**
   * Proof helper for FormatErrorsAppend: stated on plain strings, away from
   * the report functions, it keeps that proof well inside the solver's budget.
   */
  lemma Associative(x: string, y: string, z: string)
    ensures x + y + z == x + (y + z)
  {
  }

  /** The report of a concatenation is the concatenation of the reports. */
  lemma {:induction false} FormatErrorsAppend(a: seq<ValidationError>, b: seq<ValidationError>)
    ensures FormatErrors(a + b) == FormatErrors(a) + FormatErrors(b)
  {
    if |b| == 0 {
      assert a + b == a;
    } else {
      var init, last := b[..|b| - 1], b[|b| - 1];
      var x, y, z := FormatErrors(a), FormatErrors(init), FormatLine(last);
      FormatErrorsAppend(a, init);
      assert (a + b)[..|a + b| - 1] == a + init;
      assert (a + b)[|a + b| - 1] == last;
      assert FormatErrors(a + b) == x + y + z;
      Associative(x, y, z);
    }
  }

  /** An error whose path keys and message contain no newline. */
  predicate SingleLine(e: ValidationError)
  {
    && '\n' !in e.message
    && forall k :: 0 <= k < |e.path| ==> '\n' !in ElementText(e.path[k])
  }

  /** A line names where the error is (its joined path) and what is wrong (its message). */
  lemma LineCarries(e: ValidationError)
    ensures Contains(LineBody(e), JoinPath(e.path)) && Contains(LineBody(e), e.message)
  {
    var body := LineBody(e);
    assert OccursAt(body, JoinPath(e.path), 4);
    assert OccursAt(body, e.message, |body| - |e.message|);
  }

  /** An error that fits on one line gives a line body without a newline. */
  lemma LineBodyIsSingleLine(e: ValidationError)
    requires SingleLine(e)
    ensures '\n' !in LineBody(e)
  {
    JoinAvoids(PathTexts(e.path), '.', '\n');
  }

  /** The line bodies of the errors, in order. */
  function LineBodies(errors: seq<ValidationError>): (r: seq<string>)
    ensures |r| == |errors|
    ensures forall k :: 0 <= k < |errors| ==> r[k] == LineBody(errors[k])
  {
    if |errors| == 0 then [] else [LineBody(errors[0])] + LineBodies(errors[1..])
  }

  /**
   * The report is the line bodies joined by newlines, with a final newline:
   * every error contributes exactly its line, in order, and nothing else.
   */
  lemma {:induction false} FormatErrorsIsJoinOfLines(errors: seq<ValidationError>)
    ensures FormatErrors(errors) == Join(LineBodies(errors) + [""], '\n')
  {
    if |errors| > 0 {
      var e, rest := errors[0], errors[1..];
      var parts := LineBodies(errors) + [""];
      assert FormatErrors([e]) == FormatLine(e) by {
        assert [e][..0] == [];
      }
      assert parts[0] == LineBody(e);
      assert parts[1..] == LineBodies(rest) + [""];
      calc {
        FormatErrors(errors);
        { assert errors == [e] + rest; FormatErrorsAppend([e], rest); }
        FormatLine(e) + FormatErrors(rest);
        { FormatErrorsIsJoinOfLines(rest); }
        LineBody(e) + "\n" + Join(LineBodies(rest) + [""], '\n');
        Join(parts, '\n');
      }
    }
  }

  /**
   * One line per error, in the validator's order: splitting the report at
   * newlines gives the errors' line bodies followed by the empty text after
   * the last newline. So the report has exactly |errors| lines.
   */
  lemma ReportLines(errors: seq<ValidationError>)
    requires forall k :: 0 <= k < |errors| ==> SingleLine(errors[k])
    ensures Split(FormatErrors(errors), '\n') == LineBodies(errors) + [""]
  {
    BodiesAreSingleLines(errors);
    FormatErrorsIsJoinOfLines(errors);
    SplitJoin(LineBodies(errors) + [""], '\n');
  }

  lemma BodiesAreSingleLines(errors: seq<ValidationError>)
    requires forall k :: 0 <= k < |errors| ==> SingleLine(errors[k])
    ensures NoneContains(LineBodies(errors) + [""], '\n')
  {
    var bodies := LineBodies(errors);
    var parts := bodies + [""];
    forall k | 0 <= k < |parts|
      ensures '\n' !in parts[k]
    {
      if k < |bodies| {
        assert parts[k] == LineBody(errors[k]);
        LineBodyIsSingleLine(errors[k]);
      } else {
        assert parts[k] == "";
      }
    }
  }

  /**
   * When no key on the path contains ".", the joined path can be split back
   * into the texts of its elements.
   */
  lemma PathRoundTrip(path: seq<PathElement>)
    requires |path| >= 1
    requires forall k :: 0 <= k < |path| ==> '.' !in ElementText(path[k])
    ensures Split(JoinPath(path), '.') == PathTexts(path)
  {
    SplitJoin(PathTexts(path), '.');
  }

  /** An array index is written in decimal and never brings a "." or a newline into a line. */
  lemma IndexText(position: int)
    ensures ElementText(Index(position)) == IntToDecimal(position)
    ensures '.' !in ElementText(Index(position)) && '\n' !in ElementText(Index(position))
  {
  }
}
