# dw-download in Dafny

A model of the three scripts of dw-download, which archive a Dreamwidth journal:

- **dw-downloader.py** exports one month as XML. In order, it:
  - loads the session cookies, from a Netscape cookies.txt file or from a raw `Cookie:` header;
  - fetches the `/export` page through a retrying transport;
  - picks the export form and builds its payload;
  - guesses the year and month field names and writes the requested month into them;
  - forces the output-format field to XML;
  - posts the form, classifies the reply, and saves it.

  The result is an exit code:
  - 0 when the file is saved;
  - 2 for bad arguments;
  - 3 when the session is not authenticated or the page status is bad;
  - 4 when the reply is not an XML export;
  - 1 when an exception escapes.
- **dw-batch-export.py** walks a range of months. For each month it:
  - skips the month when its output file already exists;
  - otherwise runs the downloader as a subprocess;
  - on a failure, appends a row to the failure ledger `failed_months.csv`;
  - pauses "normally" after a success and "grumpily" after a failure.

  It stops with code 3 after five consecutive failures.
- **dw-download-images.py** reads `image_urls.txt` and gives each URL a content-addressed path under `dw_images/`. It then downloads every URL whose file does not yet exist and logs failures to `image_failures.csv`, counting successes and failures.

## How the model is built

- **Stateful code is imperative Dafny.** Wherever the scripts fill a dict in a loop, change a counter, or append to a file, the model has a method with a loop. Each such method is proved equal to a specification function of its inputs:
  - `Cookies.ParseCookieHeader` and `Forms.BuildFormPayload`;
  - `Transport.RequestWithRetries` and `BatchExport.BatchMain`;
  - `DownloadImages.DownloadAll`, among others.

  The properties the scripts promise are then lemmas about those functions.
- **Files are class fields.**
  - The failure ledger of the batch driver is the `lines` field of the `BatchExport.FailureLog` class, a sequence of strings.
  - The image store is the `DownloadImages.Disk` class. Its `images` map goes from paths to bytes, and its `failureLog` field is the failure ledger.
  - Appending means extending that sequence.
- **Foreign behaviour comes in through `World` values.** This covers the network, the HTML parser, `urljoin`, `sha256`, the suffix of a URL path, the clock, the random draws and the subprocess. Each is a function taken as a parameter; see "## Left out".
- **Modules follow the program's structure.**

  | module | contents |
  |---|---|
  | `Wrappers`, `Paths` | `Option`, `Result` and paths |
  | `Text` | Python `str` operations on `seq<char>` |
  | `Entries` | the last-wins dict fold shared by all payload and cookie loops |
  | `Cookies` | `parse_cookie_header`, `load_netscape_cookie_file` |
  | `Transport` | `request_with_retries` |
  | `Forms` | `choose_export_form`, `build_form_payload`, `guess_year_month_field_names`, `force_output_format_xml` |
  | `Classifier` | `looks_like_xml_export` and the login-redirect test |
  | `ExportSession` | the decision and exit-code flow of the downloader's `main` |
  | `BatchExport` | dw-batch-export.py |
  | `DownloadImages` | dw-download-images.py |

## Choices the code makes

- **Credentials.** The code accepts both credentials and then uses the cookie file (dw-downloader.py:294). See `ExportSession.CookieFileWins`.
- **Pacing.** `jitter_sleep` runs only in `main`, once after the GET and once after the POST (dw-downloader.py:308, 342). None follows a back-off or the attempts inside the retry loop. `ExportSession.Outcome.pauses` counts those sleeps. One follows each request that is answered: two when the POST is answered, one when only the GET is, and none when the GET raises or the arguments are rejected. The retry loop counts its own back-off sleeps separately.
- **Outcomes.** The code reports process exit codes. The batch driver sees only the subprocess return code and whether the output file exists.

## Model

| member | source | states |
|---|---|---|
| Cookies.ParseCookieHeader | dw-downloader.py:43-51 | the loop over `;`-separated segments builds exactly the jar `HeaderJar` of the header |
| Cookies.HeaderJarContents | dw-downloader.py:45-50 | a key is in the jar iff some segment, stripped, is non-empty, contains `=`, and has that key before its first `=` |
| Cookies.HeaderJarLastWins | dw-downloader.py:50 | a kept segment with no later segment of the same key gives that key its value: later duplicates overwrite earlier ones |
| Cookies.SegmentSplitsOnFirstEquals | dw-downloader.py:46-50 | a kept segment is split at its first `=` only, both halves stripped, so values may contain `=` |
| Cookies.SegmentExample | dw-downloader.py:49 | `a=b=c` is kept and gives the entry (`a`, `b=c`) |
| Cookies.LoadNetscapeCookieFile | dw-downloader.py:54-66 | a missing file raises FileNotFound; the jar is empty, and RuntimeError is raised, iff no line is a cookie line for the domain; otherwise the result is the jar of the lines |
| Cookies.FileJarContents | dw-downloader.py:58-63 | a name is in the jar iff some line is non-empty, does not start with `#`, has 7 or more tab fields with the domain inside field 0, and has that name in field 5 |
| Cookies.FileJarLastWins | dw-downloader.py:62-63 | the last cookie line with a given name sets its value to field 6; extra fields are ignored |
| Transport.RetryFrom | dw-downloader.py:76-91 | a delivered response is the first non-retryable attempt, returned unchanged and numbered within the budget; exhaustion means every attempt in the budget was retryable |
| Transport.RequestWithRetries | dw-downloader.py:69-91 | the attempt loop returns the outcome `Retry` specifies and sleeps one back-off after each retryable status or exception |
| Transport.RetryContract | dw-downloader.py:76-91 | at most `max_retries` attempts are made; a response is the first one whose status is not in {429,500,502,503,504}; RuntimeError after exactly `max_retries` attempts iff every attempt is retryable |
| Transport.TwoUnavailableThenOk | dw-downloader.py:76-85 | two 503 replies and then a 200 give the 200 after 3 attempts |
| Transport.AlwaysUnavailable | dw-downloader.py:76-91 | an endpoint that always answers 503 exhausts exactly `max_retries` attempts |
| Forms.ChooseExportFormSpec | dw-downloader.py:94-106 | no forms raises; otherwise the result is the first form passing either test (a year/month select, or "export" in the lower-cased text), or `forms[0]` when none does, and always one of the forms |
| Forms.SinglePassChoice | dw-downloader.py:100-104 | one pass, not two tiers: an "export" form before a form with a year select is chosen |
| Forms.BuildFormPayload | dw-downloader.py:109-146 | the three loops build exactly `FormPayload`: inputs, then selects, then textareas, each overwriting earlier entries |
| Forms.FormPayloadKeys | dw-downloader.py:109-146 | a key is in the payload iff it names a submitted input (named, not submit/button/image/file, checked when a checkbox or radio), a named select with an option, or a named textarea |
| Forms.InputValueStands | dw-downloader.py:112-127 | the last input of a name, not overridden by a select or textarea, supplies its value, or "1" for a checked toggle with an empty value |
| Forms.ChosenOptionRule | dw-downloader.py:133-138 | a select submits its first selected option, else its first option, and nothing when it has no options |
| Forms.SelectOverwritesInputs | dw-downloader.py:129-138 | the last select of a name sets its key over any input of that name |
| Forms.TextareaOverwrites | dw-downloader.py:140-144 | the last textarea of a name sets its text over inputs and selects of that name |
| Forms.CountYearMonthOptions | dw-downloader.py:157-159 | the counting loop returns the number of 4-digit option texts and the number of option texts that are numerals in 1..12 |
| Forms.GuessYearMonthFieldNames | dw-downloader.py:149-165 | the select loop returns the last named select with at least 5 year-like options, or "year", and likewise for months and "month" |
| Forms.LastNamedSpec | dw-downloader.py:153-163 | the default stands when no select qualifies; otherwise the name is that of a qualifying select with no qualifying select after it |
| Forms.YearNumbersCount | dw-downloader.py:158 | options numbered from 1000 up to 9999 all count as years and none as months |
| Forms.MonthNumbersCount | dw-downloader.py:159 | options numbered within 1..12 all count as months and none as years |
| Forms.GuessFromOptionTexts | dw-downloader.py:149-165 | a select with options "2000".."2009" gives the year field and one with "1".."12" gives the month field |
| Forms.TooFewYearsKeepsDefault | dw-downloader.py:150-163 | four year options are not enough: the defaults ("year", "month") remain |
| Forms.ForceOutputFormatXml | dw-downloader.py:168-217 | the select loop and the radio loop change the payload, and report a change, exactly as `ForcedXml` says |
| Forms.SelectDecides | dw-downloader.py:177-192 | the first named select with an XML-looking option sets its key to that option's value, or its label when the value is "", and nothing else changes |
| Forms.LaterSelectsIgnored | dw-downloader.py:188-192 | once a select matches, the selects after it are never consulted |
| Forms.RadiosDecide | dw-downloader.py:195-217 | with no forcible select, a change happens iff some radio's value mentions XML; the key set is the first group name, in first-appearance order, with such a value, and the value is that group's first such value |
| Forms.RadioXmlTargetRule | dw-downloader.py:195-209 | the radio search fails iff no radio value mentions XML, and otherwise picks group-wise, not in document order |
| Forms.GroupRadiosPaired | dw-downloader.py:195-202 | `setdefault().append` grouping equals the reference: distinct names in first-appearance order, each with its values in document order |
| Forms.RadioNamesMembers | dw-downloader.py:196-202 | a name is a group iff some named radio carries it |
| Forms.RadioValuesMembers | dw-downloader.py:196-202 | a value is in a group iff some radio of that name has it |
| Forms.ForcedXmlChangesOneField | dw-downloader.py:168-217 | True iff a select is forcible or a radio value mentions XML; when True exactly one named key changes, and when False the payload is unchanged |
| Forms.MentionsXmlSamples | dw-downloader.py:189 | the XML test is case-insensitive and refuses "html" |
| Forms.HtmlXmlOptions | dw-downloader.py:188-190 | of the options ("1","HTML") and ("2","XML"), only the second looks like XML, and it submits "2" |
| Forms.XmlOptionByCaption | dw-downloader.py:177-192 | the select [("1","HTML"),("2","XML")] sets the format field to "2" |
| Forms.InterleavedRadioGroups | dw-downloader.py:195-202 | radios fmt, alt, fmt form the groups fmt (two values) then alt |
| Forms.RadioGroupsSearchedByName | dw-downloader.py:204-209 | the XML radio of the earlier group wins over an XML radio that appears earlier in the page |
| Classifier.LooksLikeXmlExportAt | dw-downloader.py:220-229 | XML iff the lower-cased Content-Type contains "xml" or a marker occurs in the first 5000 characters of the left-stripped, lower-cased body |
| Classifier.LeadingWhitespaceIgnored | dw-downloader.py:222 | leading whitespace of the body does not change the verdict |
| Classifier.OnlyHeadConsulted | dw-downloader.py:227 | only the first 5000 characters after left-stripping are looked at |
| Classifier.XmlDeclarationRecognised | dw-downloader.py:227-229 | a body starting with `<?xml` after whitespace is an XML export |
| Classifier.LoginTestIgnoresCase | dw-downloader.py:310 | a final URL containing "login" in any letter case counts as a login redirect |
| ExportSession.RunExport | dw-downloader.py:263-360 | `main`'s steps give exactly the outcome `Export` specifies: status, pauses, debug stage, the POST sent and the file saved |
| ExportSession.ExitCodes | dw-downloader.py:278-360 | the exit code is one of 0, 1, 2, 3, 4 |
| ExportSession.ArgumentErrors | dw-downloader.py:278-283 | exit 2 iff the month is outside 1..12 or no credential is given, and then nothing is requested or posted |
| ExportSession.CookieFileWins | dw-downloader.py:294-299 | with a cookie file given, the Cookie header makes no difference |
| ExportSession.LoginRedirectGivesThree | dw-downloader.py:310-313 | a final URL with "returnto=/export", or "login" in any case, gives 3 whatever the status, and nothing is posted |
| ExportSession.SuccessMeansSaved | dw-downloader.py:315-360 | exit 0 implies the cookies loaded, the page gave 200 without a login redirect, the post was answered, the answer looks like XML, and its body is saved at `dw_export_{journal or default}_{YYYY}-{MM}.xml` |
| ExportSession.BadStatusGivesThree | dw-downloader.py:315-317 | a page without a login redirect whose status is not 200 gives 3 with the "get_export_badstatus" artifacts, and nothing is posted or saved |
| ExportSession.AnsweredPostDecides | dw-downloader.py:336-360 | once the page is accepted and the chosen form's POST is answered, the overridden and coerced payload is posted; exit 4 iff the answer does not look like XML (nothing saved, "post_export_notxml" artifacts); exit 0 iff it does, with its body saved at the output path |
| ExportSession.NotXmlGivesFour | dw-downloader.py:344-357 | for every run: exit 4 implies a form was posted and nothing was saved, and a file is saved iff the exit code is 0 |
| ExportSession.FromPageShape | dw-downloader.py:319-360 | after the page is accepted the run ends in 0, 4 or an exception; two pauses iff it ends in 0 or 4; saved iff 0 |
| ExportSession.PausesFollowRequests | dw-downloader.py:307-342 | at most two `jitter_sleep` pauses, two iff the POST was answered (exit 0 or 4), and at least one whenever something was posted |
| ExportSession.OverridesWritten | dw-downloader.py:326-327 | the month field holds `str(month)`, and the year field `str(year)` unless both guesses name the same field |
| ExportSession.CoercionAfterOverrides | dw-downloader.py:325-330 | the XML coercion runs after the overrides and changes at most one named key of the overridden payload |
| ExportSession.LStripSlashesShape | dw-downloader.py:336 | `lstrip("/")` removes exactly the leading slashes |
| ExportSession.PostUrlWithoutAction | dw-downloader.py:321-336 | a form without an action posts to `urljoin(base + "/", "export")` |
| BatchExport.MonthRange | dw-batch-export.py:35-42 | the generator's loop yields exactly `MonthsFrom(start, end)` |
| BatchExport.MonthsFromOrder | dw-batch-export.py:35-42 | nothing iff start > end; otherwise it starts at start, stays within [start, end], steps by one calendar month with 12 rolling over, and ascends strictly |
| BatchExport.MonthsFromCount | dw-batch-export.py:38-42 | with months in 1..12 the count is (ey*12+em) - (sy*12+sm) + 1 when that is positive, else 0 |
| BatchExport.PauseDelayBounds | dw-batch-export.py:45-48 | a delay lies in [min_s, max_s]; one exists iff min_s <= max_s and it can be slept; every non-negative delay in range can be drawn |
| BatchExport.GrumpyReasonCarriesCount | dw-batch-export.py:157-161 | the grumpy reason embeds the consecutive-failure count, which parses back from between the prefix and ")" |
| BatchExport.FailureLineRoundTrip | dw-batch-export.py:60-61 | a ledger line ends in its only newline and splits on "," into exactly four fields giving back year, month, timestamp and exit code |
| BatchExport.FailureLog.RecordFailure | dw-batch-export.py:51-64 | one line `YYYY,MM,timestamp,exit_code` is appended and the earlier lines are kept |
| BatchExport.CommandTargetsOutFile | dw-batch-export.py:105-124 | the command passes the year, month, cookie file, outdir and journal (only when non-empty), and the downloader's output path for those arguments is the batch's `outfile` |
| BatchExport.VisitMonth | dw-batch-export.py:105-165 | one loop body: the runs and pauses, the counter and the exit it takes are those of `Visit`, and its ledger rows are appended |
| BatchExport.Turn | dw-batch-export.py:99-165 | one turn of the loop keeps the ledger and the remaining report in step with `Batch` |
| BatchExport.BatchMain | dw-batch-export.py:67-169 | `main` returns `Batch`'s status with its runs and pauses, and appends exactly `Batch`'s rows to the ledger |
| BatchExport.VisitCounts | dw-batch-export.py:108-165 | a skip keeps the counter, a success (code 0 and the file exists) resets it, a failure adds one, and the run stops with 3 exactly when that makes five |
| BatchExport.StreakSnoc | dw-batch-export.py:108-139 | a skip leaves the consecutive count alone, a success resets it to 0, a failure adds one |
| BatchExport.DriveTrips | dw-batch-export.py:128-169 | the run returns 3 iff some failure brings the consecutive count to 5, and otherwise returns 0 with the count equal to the streak |
| BatchExport.ExampleStreaks | dw-batch-export.py:139-165 | for F,F,F,F,S,F,F,F,F,F the breaker trips on the 10th month and on no earlier one |
| BatchExport.TripsOnTenthMonth | dw-batch-export.py:139-169 | a run whose months classify as F,F,F,F,S,F,F,F,F,F completes its first nine months with 0 and returns 3 |
| BatchExport.LaterMonthsIgnored | dw-batch-export.py:163-165 | after the breaker trips, later months are not visited |
| BatchExport.DriveAppend | dw-batch-export.py:99-169 | a run that finishes a range carries its counter into the following range |
| BatchExport.VisitRecord | dw-batch-export.py:105-150 | a month causes one subprocess run unless skipped, and one ledger row exactly when it fails |
| BatchExport.FinishedRunLeavesRecord | dw-batch-export.py:99-169 | a completed run made one run per non-skipped month in order, and its ledger rows are exactly the failed months in order |
| BatchExport.SkipLeavesNoTrace | dw-batch-export.py:105-110 | a month whose file exists changes nothing: no run, no row, no pause, the same counter |
| DownloadImages.StoredSuffixRule | dw-download-images.py:59-61 | the suffix is kept iff it is non-empty and at most 5 characters, else ".bin" |
| DownloadImages.UrlToPathShape | dw-download-images.py:51-63 | the path is `dw_images / h[:2] / (h + suffix)` for the digest `h` of the URL and the stored suffix |
| DownloadImages.SameDestination | dw-download-images.py:51-63 | two URLs share a destination iff their digests and stored suffixes agree, so equal URLs share one |
| DownloadImages.UrlListAppend | dw-download-images.py:105 | the URL list of concatenated lines is the concatenation of their lists: order is kept |
| DownloadImages.UrlListEntries | dw-download-images.py:105 | every URL is a non-blank stripped line, and every non-blank line gives its stripped text |
| DownloadImages.UrlListNoBlanks | dw-download-images.py:105 | without blank lines the list is the lines stripped, one for one |
| DownloadImages.HttpReason | dw-download-images.py:86-88 | an answer fails iff its status is not 200, with reason `http_<code>` from which the code parses back |
| DownloadImages.Disk.RecordFailure | dw-download-images.py:66-69 | one line `ts,url,reason` is appended to the image failure log and images are untouched |
| DownloadImages.Disk.DownloadImage | dw-download-images.py:72-95 | True iff the request succeeded with 200, and then the destination holds the concatenated chunks; on False the destination is not written and exactly one failure line is appended |
| DownloadImages.FailureLineFields | dw-download-images.py:66-69 | with a comma-free URL and reason, a failure line splits back into timestamp, URL and reason |
| DownloadImages.CommaInUrlAddsField | dw-download-images.py:69 | a comma in the URL gives the line an extra field: the format is not escaped |
| DownloadImages.DownloadAll | dw-download-images.py:98-131 | `main` returns the code, counters, pauses, images and failure log that `Images` specifies |
| DownloadImages.ExitCodes | dw-download-images.py:101-131 | the code is 2 iff image_urls.txt is missing, with nothing done, else 0 whatever the failures |
| DownloadImages.VisitEffect | dw-download-images.py:112-128 | an existing destination changes only the skip count; otherwise exactly one of success or failures grows, with a file written or a log line appended, and the matching pause |
| DownloadImages.LoopCounts | dw-download-images.py:112-128 | success + failures + skipped grows by the number of URLs |
| DownloadImages.LoopFiles | dw-download-images.py:112-128 | the files grow by the successes, the log grows by the failures with its old lines as a prefix, a pause per download, old files untouched |
| DownloadImages.CountsAddUp | dw-download-images.py:105-130 | success + failures + skipped equals the number of URLs read from the list |
| DownloadImages.LoopAppend | dw-download-images.py:112 | the loop over two lists is the loop over the second started where the first ended |
| DownloadImages.LoopKeepsImages | dw-download-images.py:113-117 | an existing file stays in the store for the rest of the run |
| DownloadImages.RepeatedUrlSkipped | dw-download-images.py:113-117 | once a URL has been downloaded, a later repeat of it is skipped |
| Text.StripShape | dw-downloader.py:46-50 | `strip()` removes only whitespace, from both ends, and leaves none there |
| Text.StripIdempotent | dw-downloader.py:46-50 | stripping twice is stripping once |
| Text.LStripShape | dw-downloader.py:222 | `lstrip()` removes exactly the leading whitespace |
| Text.JoinSplit | dw-downloader.py:45 | `split(sep)` loses nothing: joining the pieces gives the string back |
| Text.ParseIntToString | dw-downloader.py:326-327 | `int(str(n)) == n` for every integer |
| Text.ParseFormatInt | dw-batch-export.py:61 | a zero-padded `{n:0Wd}` rendering parses back to `n` |
| Text.FormatHasNoSeparators | dw-batch-export.py:61 | padded and plain integer renderings contain no comma and no newline |

## Left out

- Floating point and time: the rate-limit floats, `backoff_base ** attempt + uniform(0, 0.4)`, and every `time.sleep`. The model counts the sleeps:
  - back-offs in `Transport.RequestWithRetries`;
  - `jitter_sleep` calls in `ExportSession.Outcome.pauses`;
  - the batch and image pauses as events.
- Randomness:
  - `random.randint` is a draw supplied per month in `BatchExport.World.draws`;
  - `BatchExport.PauseDelay` turns the draw into a delay, starting at the lower bound and capped at the upper one;
  - the distribution of the draws is not modelled;
  - the image pauses are recorded only by their range.
- Network: `requests` sessions, timeouts and redirects. Each request answers from an oracle `Request -> attempt number -> Attempt` in `ExportSession.World`. Image fetches are one fetch result per URL position, with streaming reduced to a list of chunks. An exception raised while the chunks are streaming is not modelled.
- HTML parsing: BeautifulSoup is replaced by an oracle that turns a body into a list of `Forms.Form` values. `get_text`, `find`, `has_attr` and `selected` attributes become fields.
- `urljoin`, `hashlib.sha256`, `urlparse`/`Path.suffix`, `datetime.utcnow().isoformat()` and `time.strftime` are uninterpreted functions. Digests are any 64-character lower-case hex string. Timestamps are any string without a comma or a newline, which is what both formats produce.
- Filesystem:
  - `mkdir` and directory creation are left out, as are encodings and `errors="ignore"`/`"replace"`;
  - `splitlines()`: a text file is given as its list of lines;
  - a missing file is `None`;
  - the batch's `outfile.exists()` before a run is a fixed set of existing paths, and after the run it is a flag in the subprocess result. This is sound because `month_range` never yields a month twice, so no month's run creates the file of a month still to come.
- `subprocess.run`: each month's return code and created file come from an oracle. Its captured stdout and stderr are only logged and are left out.
- `write_debug_artifacts`, `--print-snippet` and the session headers: only the stage name of the debug artifacts is recorded.
- `argparse`, `configure_logging` and its `ValueError` for an unknown level, and every `LOG` call: these are configuration and logging only.
- Python strings: `lower()` and `isdigit()` are modelled on ASCII only, while `strip()` uses Python's whitespace set.
- Mutation: `force_output_format_xml` changes the caller's dict in place. `Forms.ForceOutputFormatXml` returns the new dict instead. Only `main` holds a reference to the dict, so the two are observably equal; aliasing is not modelled.
- Exceptions: uncaught exceptions are a `Raised` status with Python's exit code 1. The model covers three of them:
  - the cookie errors;
  - retry exhaustion;
  - "no form" (re-raised after the parse-failure artifacts at dw-downloader.py:332-334).

  Other exceptions from the parser or the filesystem are not modelled. Because `isdigit()` is ASCII-only here, the model also does not capture the `ValueError` in `guess_year_month_field_names` (dw-downloader.py:159). Python's `isdigit()` accepts characters such as '²' that `int()` rejects, so such an option text raises inside the `try` of dw-downloader.py:319-334. That path writes the "get_export_parsefail" artifacts and re-raises, and is not modelled.
- Python integers are unbounded, so no width is modelled.
