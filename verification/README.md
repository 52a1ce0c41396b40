# bump-dictionary: the upgrade pipeline, modelled in Dafny

`bump_dictionary` upgrades a Neurobagel data dictionary (a JSON document that
annotates the columns of a dataset) from the previous version of the data
dictionary schema to the latest one. This project models the decision logic
of its command, `main` in `bump_dictionary/cli.py`, and proves what the
command promises about it:

1. A document with no errors against the latest schema stops the run with
   "already up-to-date".
2. Otherwise a document with errors against the previous schema stops the run
   with a report of those errors: a preamble saying it is not valid against the
   previous schema, `Found N error(s):`, then one line per error.
3. Otherwise the document is transformed. If the transformation raises, the
   run stops with the exception's text. If the transformed document has errors
   against the latest schema, the run stops with a report of those errors
   under a different preamble.
4. Only then is the transformed document saved and success logged.

Each report line is `" -> "` + the error's path joined with `"."` (keys as
they are, array indices in decimal) + `": "` + the message + a newline.

Files:

- `text.dfy` (module `Text`): Python's `sep.join`, its inverse `split`,
  `str()` of an integer, and substring containment.
- `report.dfy` (module `Report`): path elements, validation errors, the report
  format (`FormatErrors`), and the loop that builds it (`AccumulateReport`).
- `pipeline.dfy` (module `Pipeline`): the outcomes, the pure classification
  `Classify`, the logger and file system as an `Effects` object, the
  step-by-step `Run` method, and the lemmas about the outcomes.

The schema validator and the transformation are parameters of `Classify` and
`Run`. `validate(doc, schema)` gives the errors of a document against one of
the two schemas, in the validator's order. `transform(doc)` gives the upgraded
document, or the text of the exception it raised. The logger's `log_error`
ends the run with one error record and a non-zero exit. In the model it ends
`Run` with an error outcome that carries the logged message. That behaviour
comes from `logger.py`, which is not part of this model. The tests pin it down:
a non-zero exit code and exactly one log record.

Points where the model takes a position:

- The code checks the latest schema before the previous one
  (`bump_dictionary/cli.py:53-64`). The model follows the code: a document
  valid against both schemas is "already up-to-date" (`UpToDateFirst`).
- The post-transformation `log_error` (`bump_dictionary/cli.py:93`) sits
  inside the `try` whose `except Exception` (`bump_dictionary/cli.py:99`)
  reports transformation failures. The model assumes that `log_error` ends the
  process without raising an `Exception` subclass. Under that assumption a
  post-validation failure and a transformation exception are two distinct
  outcomes, as the two messages intend. If `log_error` raised such an
  exception, the run would log a second record. The model does not cover that.
- The two identical report loops (`bump_dictionary/cli.py:65-71` and
  `bump_dictionary/cli.py:86-92`) are one method, `AccumulateReport`.

## Model

| member | source | states |
|---|---|---|
| `Pipeline.Run` | bump_dictionary/cli.py:51-109 | the run's outcome is `Classify` of the document and its collaborators; at the default verbosity it leaves exactly one log record (an error record with the outcome's message, or the info record "Successfully updated data dictionary. Output saved to <output>" on success); it asks to save at most once, only on success, and then saves the transformed document to the output path with the overwrite flag |
| `Pipeline.Classify` | bump_dictionary/cli.py:53-103 | the run ends as already up-to-date exactly when the document has no latest-schema errors, and a successful run carries the transformed document, which has no latest-schema errors; the other branches are stated by `UpToDateFirst`, `TooLegacyReport`, `PostValidationReport`, `TransformFailureReport` and `SuccessIsCheckedTransform` |
| `Pipeline.LegacyMessage` | bump_dictionary/cli.py:72-77 | the too-legacy message states the number of previous-schema errors as "<count> error(s)"; `TooLegacyReport` adds that it says "not valid against the previous schema" |
| `Pipeline.InternalMessage` | bump_dictionary/cli.py:93-97 | the post-transformation message states the number of latest-schema errors of the transformed document as "<count> error(s)" |
| `Pipeline.CountHeader` | bump_dictionary/cli.py:76 | the "Found N error(s):" line contains "N error(s)" with N in decimal and ends with a newline, so the report starts on its own line (the same line is built at bump_dictionary/cli.py:96) |
| `Pipeline.RecordOf` | bump_dictionary/cli.py:56-59 | the record a run leaves is at info level exactly on success, and otherwise is an error record whose text is the outcome's message (the records are logged at bump_dictionary/cli.py:72-78, 93-103 and 107-109) |
| `Pipeline.Effects.Log` | bump_dictionary/cli.py:107-109 | logging appends exactly one record and leaves the save requests unchanged (the error records come from bump_dictionary/cli.py:56-59, 72-78 and 93-103) |
| `Pipeline.Effects.Save` | bump_dictionary/cli.py:105 | saving appends exactly one save request and leaves the log unchanged |
| `Pipeline.UpToDateFirst` | bump_dictionary/cli.py:53-59 | the run stops as already up-to-date if and only if the document has no latest-schema errors, whatever the previous schema says; the message contains "already up-to-date" |
| `Pipeline.TooLegacyReport` | bump_dictionary/cli.py:61-78 | the run stops as too legacy if and only if the document has errors against both schemas; the message is the legacy preamble, the count line and the formatted previous-schema errors; it contains "not valid against the previous schema" and "<number of errors> error(s)" |
| `Pipeline.TwoLegacyErrors` | tests/test_bump_dictionary.py:91-94 | a document failing the latest schema with exactly two previous-schema errors ends as too legacy, and its message contains "2 error(s)" |
| `Pipeline.CountReported` | bump_dictionary/cli.py:76 | a message made of a preamble, the "Found N error(s):" line and a report contains "N error(s)", with N in decimal |
| `Pipeline.TransformOnlyWhenNeeded` | bump_dictionary/cli.py:53-81 | when the document is already current or fails the previous schema, the transformation's result cannot change the outcome: the transformation is consulted only after both checks pass |
| `Pipeline.PostValidationReport` | bump_dictionary/cli.py:80-98 | after a successful transformation the transformed document, not the input, is checked against the latest schema; the run succeeds with it if and only if that check finds no errors, and otherwise ends in an internal error whose message carries the count and the formatted errors of that check |
| `Pipeline.TransformFailureReport` | bump_dictionary/cli.py:99-103 | an exception from the transformation ends the run with "An unexpected error occurred while upgrading the data dictionary: " followed by the exception's text; nothing is saved (see `Run`) |
| `Pipeline.MessagesDistinct` | bump_dictionary/cli.py:56-102 | the up-to-date, too-legacy, internal-error and transform-failure messages are pairwise different, whatever errors or exception text they carry |
| `Pipeline.SuccessIsCheckedTransform` | bump_dictionary/cli.py:80-109 | a run succeeds with document d if and only if the input fails the latest schema, passes the previous one, transforms into d, and d has no latest-schema errors |
| `Pipeline.RerunIsAlreadyCurrent` | bump_dictionary/cli.py:53-59 | running the command again on a document a run saved stops as already up-to-date, assuming that loading the saved file gives back the saved document (the `save_json`/`load_json` round trip is not modelled) |
| `Report.AccumulateReport` | bump_dictionary/cli.py:65-71 | the loop that appends one line per error to an empty string yields exactly `FormatErrors` of the errors |
| `Report.FormatErrors` | bump_dictionary/cli.py:65-71 | the report is empty if and only if there are no errors |
| `Report.FormatLine` | bump_dictionary/cli.py:67-71 | each error's line starts with " -> " and ends with a newline |
| `Report.FormatErrorsAppend` | bump_dictionary/cli.py:66-71 | the report of two error lists in sequence is the report of the first followed by the report of the second, so each error adds its own line in the validator's order |
| `Report.FormatErrorsIsJoinOfLines` | bump_dictionary/cli.py:65-71 | the report is the errors' line bodies, in order, each followed by a newline, and nothing else |
| `Report.ReportLines` | bump_dictionary/cli.py:65-71 | when no key or message contains a newline, splitting the report at newlines gives exactly one line per error, in order, followed by the empty text after the final newline |
| `Report.LineBody` | bump_dictionary/cli.py:67-70 | no contract of its own; `LineCarries`, `LineBodyIsSingleLine` and `FormatLine` describe it |
| `Report.LineCarries` | bump_dictionary/cli.py:67-70 | each error's line contains the error's joined path and its message |
| `Report.LineBodyIsSingleLine` | bump_dictionary/cli.py:67-70 | when no key or message contains a newline, neither does the error's line before its final newline |
| `Report.JoinPath` | bump_dictionary/cli.py:69 | no contract of its own; `PathRoundTrip` states that it can be split back into the texts of its elements |
| `Report.ElementText` | bump_dictionary/cli.py:69 | no contract of its own; `PathTexts` and `IndexText` describe it (a key is its own text, an index its decimal numeral) |
| `Report.PathTexts` | bump_dictionary/cli.py:69 | `map(str, path)` has one text per path element, each that element's `str` |
| `Report.PathRoundTrip` | bump_dictionary/cli.py:69 | for a non-empty path whose keys contain no ".", splitting the joined path at "." gives back the texts of its elements |
| `Report.IndexText` | bump_dictionary/cli.py:69 | an array index on a path is written in decimal and contains neither "." nor a newline |
| `Text.Join` | bump_dictionary/cli.py:69 | no contract of its own; `JoinSplit` and `SplitJoin` state that `Split` is its inverse |
| `Text.JoinSplit` | bump_dictionary/cli.py:69 | joining the pieces of a split with the same separator gives back the original string |
| `Text.SplitJoin` | bump_dictionary/cli.py:69 | splitting a join of one or more separator-free parts gives back exactly those parts |
| `Text.NatToDecimal` | bump_dictionary/cli.py:76 | the decimal numeral of a count is a non-empty string of digits whose first digit is "0" only for zero |
| `Text.IntToDecimal` | bump_dictionary/cli.py:69 | `str` of an integer is non-empty, starts with "-" exactly when the integer is negative, and is otherwise made of digits |
| `Text.IntToDecimalRoundTrip` | bump_dictionary/cli.py:69 | reading `str(i)` back as a decimal numeral gives `i` |

## Left out

- Command-line parsing with typer, the verbosity option and the logger
  configuration (`bump_dictionary/cli.py:10-43`): interface plumbing. At
  verbosity 0 the success record is not shown; `Run` records it as at the
  default level.
- Building the two schemas from the pydantic models
  (`bump_dictionary/cli.py:44-49`): calls into models that are not part of
  this model. The schemas are the two values of `Schema`.
- Loading the input file and its UTF-8 and JSON decoding errors
  (`bump_dictionary/cli.py:51`, `bump_dictionary/utils.py:10-25`): file I/O.
  `Run` starts from the already loaded document.
- `utils.get_validation_errors_for_schema`, which the command calls at
  `bump_dictionary/cli.py:53`, `:61` and `:82`, is not part of this model. It
  is the `validate` parameter. Its result shape, a list of errors each with a
  `path` and a `message`, is taken from how `bump_dictionary/cli.py:66-70`
  uses them. A related jsonschema Draft 2020-12 wrapper,
  `validate_against_dictionary_schema` (`bump_dictionary/utils.py:28-36`), is
  not called by the command.
- The transformation `utils.encode_variable_type` is not part of this model.
  It is the `transform` parameter, so none of its rules are modelled.
- Writing the output file, `utils.save_json`, and its overwrite policy are not
  part of this model. `Run` records a save request (document, path, overwrite
  flag) in `Effects`.
- `logger.py` is not part of this model. Its `log_error` is modelled as "log
  one error record, then end the run with a non-zero exit". Exit codes are not
  modelled beyond "every outcome except `Success` is an error exit".
- Exceptions from the second `get_validation_errors_for_schema` call or from
  formatting inside the `try` (`bump_dictionary/cli.py:82-92`) would also reach
  the `except` at line 99. The model lets only the transformation raise.
- `Pipeline.MessagesDistinct` compares the complete messages, not how a log
  reader would tell them apart.
- `bump-dictionary/cli.py` is an earlier stub that only loads the file. It has
  no logic to model.
