# pytest test-plan and report-archiving plugin, in Dafny

This project models the pytest plugin in `conftest.py`. The plugin does two jobs.

- **Test plan.** With `--testplan PATH`, `pytest_collection_modifyitems` writes a CSV file with a header row and one row per collected test. Each row holds the test's title, its normalised docstring and its comma-joined markers. The run then stops before any test executes.
- **Report archiving.** With `--gcs-service-key` and `--gcs-bucket`, `pytest_configure` makes the HTML report self-contained. It also names the report `<YYYYMMDDTHHMMSS>_<filename>.html` when no `--html` path was given. At the end of the session, `pytest_sessionfinish` uploads the report under the object key `YYYY/MM/DD/<htmlpath>` and deletes the local file.

Modules, one per concern:

- `wrappers.dfy`: `Option` and `Result`.
- `text.dfy`: `str.strip()` over the six usual whitespace characters, the substitution `re.sub('\n\s+', '\n', …)`, `sep.join` and a reference `str.split`.
- `decimal.dfy`: zero-padded decimal rendering (`{n:04}`, `{n:02}`) and reading it back.
- `archive.dfy`: the `%Y%m%dT%H%M%S` timestamp, the default report name and the archive key.
- `plan.dfy`: test items, titles, descriptions, markers and the plan rows.
- `session.dfy`: the class `Session`. It holds the state the three hooks read and change:
  - the rewritten report options `htmlpath` and `selfContained`;
  - the module-level `now`;
  - the plan rows;
  - whether the local report file exists;
  - the bucket's objects.

The hooks are its methods `Configure`, `CollectPlan` and `Finish`.

Where the code differs from what one might assume, the model follows the code:

- **Two timestamps.** The default report name uses the `now` taken when the plugin is imported (conftest.py:10, 55). `pytest_configure` then replaces `now` with the configuration time, but only when both archiving options are given (conftest.py:59). The archive folder's date comes from that second value (conftest.py:91). The model keeps both instants, and `Archive.DefaultNameArchiveDates` proves the two dates in a default-named key agree exactly when the two instants fall on the same date.
- **The whole `htmlpath` goes into the key.** Directories in it are not stripped (conftest.py:92).
- **Rows already written stay.** A test without a docstring makes `.strip()` raise (conftest.py:75). By then the rows of the earlier items are already in the file. `Session.CollectPlan` keeps exactly those rows and reports the failing item's position.

## Model

| member | source | states |
|---|---|---|
| Text.Strip | conftest.py:75 | `str.strip()`; characterised by `Text.StripShape` and `Text.StripOfStripped` |
| Text.CollapseIndent | conftest.py:75 | `re.sub('\n\s+', '\n', s)`; characterised by `Text.CollapseShape`, `Text.CollapseLine`, `Text.CollapseFixpoint` and `Text.CollapseIdempotent` |
| Text.Join | conftest.py:76 | `sep.join(parts)`; characterised against `Text.SplitOn` by `Text.JoinSplit` and `Text.SplitJoin` |
| Text.TrimStartShape | conftest.py:75 | dropping leading whitespace removes exactly a whitespace prefix: the result is a suffix, starts with a visible character (or is empty), and keeps every visible character |
| Text.TrimEndShape | conftest.py:75 | dropping trailing whitespace removes exactly a whitespace suffix and keeps every visible character |
| Text.StripShape | conftest.py:75 | `strip()` leaves no whitespace at either end, keeps the visible characters, and removes only whitespace margins |
| Text.StripOfStripped | conftest.py:75 | a string without whitespace at its ends is its own strip |
| Text.CollapseShape | conftest.py:75 | after the substitution no newline is followed by whitespace, the visible characters are unchanged, and a visible first character is kept |
| Text.CollapseFixpoint | conftest.py:75 | a string with no indented newline is left unchanged by the substitution |
| Text.CollapseIdempotent | conftest.py:75 | applying the substitution twice gives the same as once |
| Text.CollapseWithoutNewline | conftest.py:75 | text without a newline passes through unchanged |
| Text.CollapseKeepsStripped | conftest.py:75 | the substitution keeps a stripped string stripped |
| Text.CollapseLine | conftest.py:75 | a newline followed by any whitespace run (newlines included) becomes a bare newline, and whitespace before the newline is kept |
| Text.CollapsePrefix | conftest.py:75 | text before the first newline passes through unchanged |
| Text.BlankLinesVanish | conftest.py:75 | `"a\n\n   b"` becomes `"a\nb"` |
| Text.TrailingSpaceKept | conftest.py:75 | `"a  \n  b"` becomes `"a  \nb"` |
| Text.JoinSplit | conftest.py:76 | splitting on a separator and joining back gives the original string |
| Text.SplitJoin | conftest.py:76 | joining parts and splitting back gives the parts, provided no part but the last contains the separator's first character and the last contains no whole separator |
| Decimal.Digits | conftest.py:91 | the decimal rendering of `n` is a non-empty digit string denoting `n`, with no more digits than `n` needs: one digit, or a leading digit that is not zero |
| Decimal.SameWidthSameValue | conftest.py:91 | two digit strings of the same width are equal exactly when they denote the same number |
| Decimal.ZeroPad | conftest.py:91 | `{n:0W}` is a digit string denoting `n`, at least `W` long, and exactly `W` long when `n < 10^W` |
| Archive.Timestamp | conftest.py:55 | the timestamp has 15 characters with 'T' at index 8, and every date and time field reads back from its fixed position |
| Archive.TimestampInjective | conftest.py:55 | two valid instants have the same timestamp exactly when they are equal to the second |
| Archive.DefaultReportName | conftest.py:56 | the default name is the timestamp, '_', the filename option and `.html`, each at its fixed position |
| Archive.ArchiveKey | conftest.py:91-92 | `f'{year:04}/{month:02}/{day:02}/{htmlpath}'`; characterised by `Archive.ArchiveKeyLayout` and `Archive.ArchiveKeyInjective` |
| Archive.ArchiveKeyLayout | conftest.py:91-92 | the key is 11 characters longer than `htmlpath` and ends with it verbatim; slashes sit at 4, 7 and 10, and the year, month and day read back from their fields |
| Archive.ArchiveKeyInjective | conftest.py:91-92 | two archive keys are equal exactly when the dates and the local paths are |
| Archive.DefaultNameKeyFields | conftest.py:91-92 | the key of a default-named report carries the configuration date in its folder and the import date in its name |
| Archive.DefaultNameArchiveDates | conftest.py:91-92 | in that key, the folder date equals the name's date exactly when the import and the configuration happened on the same date |
| Archive.TimestampExample | conftest.py:55 | noon on 1 January 2024 gives `20240101T120000` |
| Archive.ArchiveKeyExample | conftest.py:91-92 | on 1 January 2024 the key is `2024/01/01/` followed by the path |
| Archive.DefaultReportNameExample | conftest.py:56 | with the default filename the report is named `20240101T120000_report.html` |
| Plan.Title | conftest.py:71-74 | the title with or without a class; characterised by `Plan.TitleSeparators` and `Plan.TitleInjective` |
| Plan.TitleSeparators | conftest.py:71-74 | splitting a title on "::" gives the module file, the class if any and the test name: two separators with a class, one without |
| Plan.TitleInjective | conftest.py:71-74 | two items have the same title exactly when module, class and name agree |
| Plan.Description | conftest.py:75 | strip, then the substitution; characterised by `Plan.DescriptionShape`, `Plan.DescriptionIdempotent` and `Plan.TwoLineDocstring` |
| Plan.DescriptionShape | conftest.py:75 | a description has no whitespace at its ends and no whitespace after a newline, shows the docstring's visible characters, and a docstring without an inner newline is only stripped |
| Plan.DescriptionIdempotent | conftest.py:75 | normalising a description again leaves it unchanged |
| Plan.TwoLineDocstring | conftest.py:75 | a two-line docstring with an indented second line and closing quotes on their own line becomes the two lines, left-aligned |
| Plan.Markers | conftest.py:76 | `','.join(names)`; characterised by `Plan.MarkersRoundTrip` and `Plan.MarkersEmpty` |
| Plan.MarkersRoundTrip | conftest.py:76 | splitting the markers column on ',' gives back every marker name in order, repetitions included |
| Plan.MarkersEmpty | conftest.py:76 | the markers column is empty exactly when there is no marker, or one with an empty name |
| Plan.RowFor | conftest.py:71-78 | the three fields of one documented item's row: `Plan.Title`, `Plan.Description` and `Plan.Markers` of the item |
| Plan.Written | conftest.py:70-78 | the rows written are, in order, those of the items before the first one without a docstring |
| Plan.PlanRows | conftest.py:69-78 | the plan succeeds exactly when every item has a docstring; it then has 1 + the number of items rows, the header first and row i+1 built from item i; otherwise it names the first undocumented item |
| Plan.WrittenAll | conftest.py:70-78 | when every item has a docstring, every item gets a row |
| Plan.WrittenSnoc | conftest.py:70-78 | one more documented item adds exactly its row at the end |
| Plan.WrittenStep | conftest.py:70-78 | after documented items, the next documented item appends exactly its row |
| Plan.PlanRowsWritten | conftest.py:69-80 | the plan is the header followed by the rows written, or the position where writing stopped |
| Plan.WrittenStopsAt | conftest.py:75 | writing stops at the first item without a docstring |
| Plan.SampleSingleLine | test_foo.py:11 | the one-line docstring of `test_bar` is kept as it is |
| Plan.SampleBarTitle | conftest.py:74 | `test_bar` in `test_foo` is titled `test_foo.py::test_bar` |
| Plan.SampleMethodTitle | conftest.py:72 | `TestFoo.test_a` in `test_foo` is titled `test_foo.py::TestFoo::test_a` |
| Plan.SampleBarRow | test_foo.py:9-12 | the row of `test_bar` is its title, `The bar test` and `high` |
| Plan.SampleMethodRow | test_foo.py:22-28 | the row of `TestFoo.test_a` is its title, its two docstring lines without indentation, and `performance,high`: the decorators list `high` above `performance`, they apply bottom-up, so `iter_markers()` yields `performance` first |
| Plan.SampleMethodDescription | test_foo.py:25-27 | the docstring of `TestFoo.test_a` becomes its two lines with the indentation removed |
| Plan.SampleMethodMarkers | test_foo.py:22-23 | the markers `performance` then `high`, in the order `iter_markers()` yields them, give the column `performance,high` |
| Plan.SamplePlan | test_foo.py:9-28 | the plan of those two items is the header and their two rows, in order |
| Session.DefaultOptions | conftest.py:13-39 | by default no plan is written, no archiving option is set, and reports are named after "report" |
| Session.Mode | conftest.py:49-51 | archiving is off when neither option is truthy, on when both are, and incomplete when exactly one is |
| Session.DefaultsArchiveOff | conftest.py:13-51 | with the default options archiving is off |
| Session.Session.constructor | conftest.py:10 | at import, `now` is the import time and nothing is written or archived |
| Session.Session.Configure | conftest.py:42-59 | with exactly one option, the run stops with the error and nothing changes. With neither, nothing changes. With both, an unset or empty `htmlpath` becomes the default name from the import time, `selfContained` is set, and `now` becomes the configuration time. On success the session is ready to archive |
| Session.Session.CollectPlan | conftest.py:62-80 | without `--testplan` nothing happens. Otherwise the plan file holds the header and the rows written; the run stops with `Generated test plan: PATH` when every item is documented, and raises with the failing position otherwise. Either way this matches `PlanRows` |
| Session.Session.Finish | conftest.py:83-97 | without a bucket nothing changes. With one, a successful upload stores the report under its dated key and then removes the local file. A failed upload leaves the file in place and the bucket unchanged |

## Left out

- `GCSBucket` and the `gcp` module are not part of this model: the upload is the parameter `uploadOk` of `Session.Finish`, and a missing local file also makes it fail.
- The object's content: the bucket maps each key to the local path uploaded under it, not to the report's bytes.
- `os.unlink` failures: the model assumes deleting the file it has just uploaded succeeds.
- File I/O and `csv.writer`'s `QUOTE_MINIMAL` quoting: the plan is a sequence of three-field rows, not CSV bytes.
- `datetime.datetime.now()`: the import time and the configuration time are parameters, within `datetime`'s ranges. The length of each month is not checked.
- `Archive.Timestamp`: pads the year to four digits. The platform `strftime` may not do that for years below 1000.
- Whitespace is the six characters `' '`, `'\t'`, `'\n'`, `'\r'`, `'\f'`, `'\v'`. Python's `str.isspace()`, which drives both `str.strip()` and `\s`, also matches the ASCII separators U+001C to U+001F and the Unicode spaces; those are not modelled.
- `pytest.exit` and `print`: `pytest.exit` becomes the `Exit` outcome with its message, and the upload notice is not modelled.
- `pytest_addoption` is carried only as its defaults (`Session.DefaultOptions`).
- The hook registration and pytest's call order are not modelled.
- pytest's introspection of items is not modelled. An item is a record of module name, class name, test name, docstring and marker names, with the markers in the order `iter_markers()` yields them.
- The HTML report is written by the report plugin, not by this one. `Session.ReportWritten` only marks the file as present.
