# tuin — a verified model of the garden-design pipeline's decision logic

The four scripts modelled here drive a garden-design loop:

- `generate.py` asks an image model for a design of one garden zone. It saves the first image of the reply as the zone's next version.
- `verify.py` asks a second model call to score the design against photos of the space. It turns the reply into a verdict record, moves rejected images aside and appends a record to the verify log.
- `pipeline.py` alternates generation and verification within a retry budget.
- `status.py` reads the verify log back. It reports the best score per zone, the inspiration counts and the readiness issues.

The model keeps the decision logic of those scripts and replaces every call to the outside world with a parameter:

- a model reply becomes a value or an oracle function;
- a folder becomes a list of names;
- a file becomes an optional string;
- `json.loads` becomes an oracle.

Files:

| file | module | contents |
|---|---|---|
| `Wrappers.dfy` | `Wrappers` | `Option` |
| `Text.dfy` | `Text` | the Python string operations the scripts rely on: `str.isspace`, `split`, `join`, `strip`, `int()` of digits, `str()` of numbers, ASCII upper-casing, leftmost search. The regex `X:\s*(\d+)/50` is written out as a scan. |
| `Zones.dfy` | `Zones` | the five zones and their order in `ZONES` |
| `Verify.dfy` | `Verify` | `parse_verdict` (JSON branch and marker fallback), `verify_image`, `handle_verdict` and its log record |
| `Generate.dfy` | `Generate` | `get_next_version`, the prompt assembly, `generate` |
| `Pipeline.dfy` | `Pipeline` | `has_annotated_photos`, the annotate-or-skip decision, the generate/verify attempt loop |
| `Status.dfy` | `Status` | `parse_verify_log`, the best-score cell, the inspiration counts, the readiness issues |
| `RoundTrip.dfy` | `RoundTrip` | the writer/reader round trip between `handle_verdict` and `parse_verify_log` |

Regular expressions are modelled as leftmost searches.

- A search function's contract states that the match it reports is the leftmost one.
- Greedy `\S+` in the log header is modelled with the engine's backtracking: it takes the longest run after which the rest of the pattern matches.
- The greedy `\s*` in `FEEDBACK:\s*(.+)` gives back one character when only white space follows. `Verify.FeedbackIsStrippedRemainder` proves that this comes to "strip the text after the marker".

Where the scripts' own comments and messages promise more than their code does, the model follows the code:

- The header of `scripts/pipeline.py` (line 9) promises "retry with feedback adjustments (self-healing loop)". Yet `generate(client, zone)` takes no feedback (`scripts/generate.py:110`, `scripts/pipeline.py:125`). The verdict's feedback is only printed (`scripts/pipeline.py:162-163`), so each retry repeats the same request. No feedback reaches the model's generation step either.
- On a MARGINAL last attempt the loop prints "Best result after N attempts" (`scripts/pipeline.py:157`). The image it names is simply the last attempt's; no attempt is compared with another, and the model compares none.
- The comment "Derive verdict from score if not explicit" (`scripts/verify.py:104`) is guarded by `total > 0` in the JSON branch and by `elif total > 0` in the fallback (`scripts/verify.py:105`, `:128`). A total ≤ 0, which a JSON `total` can reach, leaves UNKNOWN; `Verify.Classify` states this.
- `verify_image` only computes a verdict. The log record and the move of a rejected image happen in `handle_verdict` (`scripts/verify.py:224-246`), which the model keeps as a separate step (`Verify.HandleVerdict`).

The version number of a design is not unique over a run. `handle_verdict` moves a rejected image out of `generated/visuals/` (`scripts/verify.py:226-229`), and `get_next_version` globs only that folder (`scripts/generate.py:99`). So the attempt after a REJECT is saved under the rejected image's name again, and the log gets a second header for that name. `Generate.RejectReusesVersion` states this.

`read_text` (`scripts/status.py:57`) reads the log with universal newlines: `\r\n` and a lone `\r` both become `\n`. `Text.UniversalNewlines` models that translation, and `Status.LogBlocks` splits the translated text.

## Model

| member | source | states |
|---|---|---|
| `Verify.Classify` | scripts/verify.py:105-111 | With no stated verdict: PASS iff total ≥ 40, MARGINAL iff 30 ≤ total < 40, REJECT iff 0 < total < 30, UNKNOWN iff total ≤ 0 (thresholds at scripts/verify.py:50-51). |
| `Verify.ClassifyMonotone` | scripts/verify.py:124-129 | A higher score never earns a worse category. |
| `Verify.StatedCategory` | scripts/verify.py:92-94 | The JSON `verdict` is accepted iff its upper-cased form is PASS, MARGINAL or REJECT, and then it is that word (never UNKNOWN). |
| `Verify.JsonCandidate` | scripts/verify.py:87 | The JSON candidate runs from the first `{` to the last `}`, and `"total"` occurs inside it. |
| `Verify.JsonCandidateNone` | scripts/verify.py:87-88 | The JSON regex fails exactly when the text has no `{` … `"total"` … `}` in that order. |
| `Verify.JsonObjectOf` | scripts/verify.py:89-91 | The JSON branch goes on iff there is a candidate, it decodes, and its `total` converts with `int`; the object it goes on with is the decoded one. A decode error or a failed conversion falls through to the markers. |
| `Verify.JsonReadError` | scripts/verify.py:89-113 | An exception outside the caught three (TypeError, AttributeError) is raised iff the candidate's reading raises it; the JSON branch then does not go on. |
| `Verify.FeedbackText` | scripts/verify.py:98-103 | Feedback is "" iff there are no issues and no adjustments. Otherwise it is `Issues: a; b`, then `Adjustments: c; d`, joined by ` \| `. |
| `Verify.VerdictMarkerIndexFrom` | scripts/verify.py:121 | The reported `VERDICT:` match is the leftmost index at which the case-insensitive pattern matches. |
| `Verify.VerdictMarkerAtMeans` | scripts/verify.py:121-123 | The pattern matches at an index iff `VERDICT:` in any case occurs there and PASS, MARGINAL or REJECT in any case follows the white space; the category is that word upper-cased. |
| `Verify.VerdictMarker` | scripts/verify.py:121-123 | The verdict marker, upper-cased, is never UNKNOWN. When there is one, it is the match at an index before which the pattern matches nowhere; when there is none, the pattern matches at no index. |
| `Verify.ParseVerdict` | scripts/verify.py:82-135 | The field-by-field filling of the result dictionary yields exactly the outcome `VerdictOf` describes: the exception when reading the candidate raises one that is not caught, else the JSON branch when it succeeds, else the marker fallback. |
| `Verify.FillFromJson` | scripts/verify.py:91-112 | The JSON branch's assignments give the record `JsonVerdict` describes. |
| `Verify.FillFromMarkers` | scripts/verify.py:116-135 | The fallback's assignments give the record `MarkerVerdict` describes. |
| `Verify.SameRuleInBothBranches` | scripts/verify.py:124-129 | Without a stated verdict, both branches classify the score with the same rule, `Classify`. |
| `Verify.StatedVerdictOverrides` | scripts/verify.py:121-123 | A stated verdict overrides the score, in the JSON branch and in the marker branch. |
| `Verify.JsonBranch` | scripts/verify.py:87-112 | When the JSON branch succeeds: `total`, `issues` and `adjustments` are the object's. Feedback is built from the two lists. The category is the stated one, else the score's. `raw` is the text. |
| `Verify.JsonIgnoresMarkers` | scripts/verify.py:112 | Two replies that carry the same JSON object give the same record: no `TOTAL:`, `VERDICT:` or `FEEDBACK:` marker plays a part. |
| `Verify.FeedbackIsStrippedRemainder` | scripts/verify.py:131-133 | The fallback's feedback is the stripped text after the first `FEEDBACK:`, or "" when there is none. |
| `Verify.MarkerBranch` | scripts/verify.py:116-135 | In the fallback: the total is the first `TOTAL: n/50`, or 0. The category is the marker's, else the score's. Feedback is the stripped remainder. Issues and adjustments are empty. |
| `Verify.NothingExtracted` | scripts/verify.py:84 | A reply with nothing to extract gives UNKNOWN, total 0, empty feedback, issues and adjustments, and `raw` equal to the text. |
| `Verify.RegexExampleTotal` | scripts/verify.py:117-119 | `TOTAL: 22/50` reads as 22. |
| `Verify.RegexExampleVerdict` | scripts/verify.py:121-123 | `VERDICT: REJECT` after a `TOTAL:` line reads as REJECT. |
| `Verify.RegexExample` | scripts/verify.py:116-129 | With no JSON object, `TOTAL: 22/50` and `VERDICT: REJECT` give total 22 and REJECT. |
| `Verify.ReferencePhotos` | scripts/verify.py:146-148 | At most two reference photos: a prefix of the annotated ones when there are any, else a prefix of the raw space photos. The list is empty iff both folders are empty. |
| `Verify.VerifyImage` | scripts/verify.py:138-221 | No reference photos: PASS with total 50, whatever the reply. A raised call: UNKNOWN, total 0, feedback `str(e)`. No candidates: UNKNOWN, total 0, raw = the response text. Otherwise the parts' texts are concatenated and parsed; an exception escaping `parse_verdict` gives UNKNOWN, total 0, feedback `str(e)`, raw "". |
| `Verify.Take` | scripts/verify.py:244 | `s[:500]` is a prefix of the string: exactly 500 characters when it is longer, the whole string otherwise. |
| `Verify.HandleVerdict` | scripts/verify.py:224-246 | The returned verdict is the record's. The image moves to rejected/ iff the verdict is REJECT. The log record begins `\n## {name} - {verdict}\n- Score: {total}/50\n` and ends with the raw text cut to 500 characters in a fenced block. |
| `Zones.ParseZone` | scripts/generate.py:56 | A name is a zone iff it is one of the five zone names, and a parsed zone's name is that name. |
| `Zones.ZonesComplete` | scripts/status.py:27 | Every zone is listed in `ZONES`. |
| `Generate.VersionGlob` | scripts/generate.py:99 | The glob keeps exactly the listed names of the form `{zone}_v*.jpg`: every matching listed name is kept, and every kept name is a listed one that matches. |
| `Generate.VersionGlobCounts` | scripts/generate.py:99 | Each name is kept as many times as the listing holds it when it matches the glob, and not at all otherwise. |
| `Generate.VersionIndexFrom` | scripts/generate.py:104 | The reported `_v(\d+)` match is the leftmost one. |
| `Generate.MaxOf` | scripts/generate.py:107 | `max(numbers)` is one of the numbers and no number exceeds it. |
| `Generate.GetNextVersion` | scripts/generate.py:97-107 | The result is 1 when no globbed stem parses. Otherwise it is one past the largest parsed version: above every parsed version, and one more than one of them. |
| `Generate.VersionOfOutputName` | scripts/generate.py:227 | The stem of a saved `{zone}_v{n}.jpg` reads back as version n. |
| `Generate.NextVersionAfterSave` | scripts/generate.py:222 | After version n of a zone is saved, the next version number is above n, as long as the saved file stays in the visuals folder. |
| `Generate.NextNameIsNew` | scripts/generate.py:222-227 | The name the next version is saved under is not yet in the visuals listing. |
| `Generate.Without` | scripts/verify.py:226-229 | The visuals listing after the move holds exactly the names it held before except the moved one. |
| `Generate.RejectReusesVersion` | scripts/generate.py:99-107 | After a saved image is moved out of the visuals folder, the next version number is that image's version again. |
| `Generate.NextVersionOfTwo` | scripts/generate.py:102-107 | Two saved versions a and b and a name the glob skips give max(a, b) + 1. |
| `Generate.NextVersionExample` | scripts/generate.py:97-107 | `shade_v1.jpg`, `notes.md` and `shade_v3.jpg` give 4. |
| `Generate.AssemblePrompt` | scripts/generate.py:192-199 | The sections are joined by blank lines. The task section is always last. The rules section comes first iff there is a system prompt. Otherwise the annotations, joined by `\n---\n`, come first when there are notes. With neither, the prompt is the task section alone. |
| `Generate.GenerateDesign` | scripts/generate.py:110-258 | An unknown zone, an empty zone prompt or a raised call gives None. Otherwise the result is None iff no part is an image or the handling of the first image part (PIL open and save, the generation-log append) raises. When it is not None, it is the first image part, saved as `{zone}_v{next version}.jpg`. |
| `Pipeline.HasAnnotatedPhotos` | scripts/pipeline.py:46-54 | True iff the folder exists and one of its names ends in `_annotated.jpg` or `_notes.md`. |
| `Pipeline.AnnotationDecision` | scripts/pipeline.py:107-117 | Annotation runs iff the skip flag is unset and nothing is annotated. Existing annotations are reported first. Otherwise the skip flag is reported. |
| `Pipeline.PassIndex` | scripts/pipeline.py:142-148 | The attempt reported in a range has a PASS verdict and lies in the range. |
| `Pipeline.PassIndexFirst` | scripts/pipeline.py:142-148 | No attempt before the reported one is PASS. When none is reported, no attempt in the range is PASS. |
| `Pipeline.VerifiedAttemptsExact` | scripts/pipeline.py:125-140 | The attempts that were verified are exactly those whose generation produced an image, in increasing order. |
| `Pipeline.RunAttempts` | scripts/pipeline.py:120-169 | The loop makes `Calls` generate calls, verifies exactly `VerifiedAttempts` of them, and ends as `EndingOf` says. |
| `Pipeline.CallsBounds` | scripts/pipeline.py:120 | There are at most `max_retries` calls, none when it is ≤ 0, and no PASS before the last call. The run completes iff some attempt passes; otherwise it uses the whole budget. |
| `Pipeline.StopsAtFirstPass` | scripts/pipeline.py:142-148 | With the first PASS at attempt k, exactly k calls are made and the run completes. |
| `Pipeline.FailureOnLastAttempt` | scripts/pipeline.py:126-133 | A generation failure on the last attempt ends the run with all calls made and that attempt unverified. |
| `Pipeline.UnknownActsAsReject` | scripts/pipeline.py:160-167 | Runs whose verdicts differ only between REJECT and UNKNOWN make the same calls, verify the same attempts and end the same way. |
| `Status.MatchHeader` | scripts/status.py:66 | The captured file name is a non-empty, white-space-free prefix of the header, and the rest of the pattern matches after it. |
| `Status.MatchHeaderGreedy` | scripts/status.py:66 | The captured name is the longest run of non-spaces after which the rest matches (greedy `\S+`). No match means no length works. |
| `Status.FirstScoreAt` | scripts/status.py:74-78 | When line i is the first carrying `Score: n/50`, the score is that line's n. |
| `Status.FirstScoreNone` | scripts/status.py:73 | When no line carries `Score: n/50`, the score is 0. |
| `Status.ZoneOfFrom` | scripts/status.py:82-85 | The first zone, in order, whose `zone_` prefix starts the name; none when no prefix does. |
| `Status.ZonePrefixUnique` | scripts/status.py:81-85 | No two zones' prefixes both start one name, so the first match is the only one. |
| `Status.ZoneOfName` | scripts/status.py:81-86 | A name is filed under the zone whose prefix starts it, and it is dropped iff no zone's prefix does. |
| `Status.BlockEntry` | scripts/status.py:61-92 | A kept block has a matching header. Its entry carries the header's captured file name and verdict and the first score of the later lines, under the zone `ZoneOfName` gives for that name. A block is dropped iff its header does not match or no zone claims the captured name. |
| `Status.ScanScore` | scripts/status.py:73-78 | The score loop with its `break` finds `FirstScore` of the lines after the header. |
| `Status.ScanZone` | scripts/status.py:81-85 | The zone loop with its `break` finds the same zone as `ZoneOfName`. |
| `Status.ParseBlock` | scripts/status.py:61-92 | One iteration of the block loop computes `BlockEntry`. |
| `Status.ZoneEntriesFiled` | scripts/status.py:87-92 | A zone has at most one entry per block, and each of its entries carries its zone's prefix. |
| `Status.CollectedIsZoneEntries` | scripts/status.py:87-92 | The `setdefault` loop's dictionary holds exactly the zones with entries. Each zone's list is its entries in log order. |
| `Status.ParseVerifyLog` | scripts/status.py:50-94 | A missing log gives `{}`. Otherwise, with the blocks taken from the log after newline translation, a zone is a key iff some block files an entry under it, and its list is those entries in log order. |
| `Status.BestScore` | scripts/status.py:136-141 | No best score iff there are no entries. The best score is attained by an entry, and no entry exceeds it. |
| `Status.BestScoreCell` | scripts/status.py:137-141 | The cell is `-` iff the zone has no entries; otherwise it is the best score followed by `/50`. |
| `Status.InspirationCounts` | scripts/status.py:103-111 | Every zone is counted. Each zone but `full` gets its own folder's count. `full` gets the sum of the other four. |
| `Status.TotalInspiration` | scripts/status.py:154 | The total over all zones is twice the four folders' sum, and it is 0 iff all four folders are empty. |
| `Status.ReadinessIssues` | scripts/status.py:148-156 | Each of the three issues is raised iff its condition holds. There are no issues iff there are space photos, annotations and inspiration. There are at most two issues, all distinct, each one of the three messages, the space issue first and the inspiration issue last. |
| `RoundTrip.BlocksAppend` | scripts/status.py:60 | Appending `\n## ` and a chunk without that marker to any log adds exactly that chunk as a new last block. |
| `RoundTrip.HeaderOfRecord` | scripts/status.py:64-70 | The header `{name} - {verdict}` that `handle_verdict` writes reads back as that name and verdict. |
| `RoundTrip.ScoreOfRecordLine` | scripts/status.py:75-77 | The score line `- Score: {total}/50` reads back as the total. |
| `RoundTrip.StripRecordBody` | scripts/status.py:61 | `block.strip()` of a record's chunk drops only its final newline. |
| `RoundTrip.BlockOfRecord` | scripts/status.py:61-92 | A record's chunk reads back as the image's entry, with the same file name, score and verdict, under the image's zone. |
| `RoundTrip.RecordReadsBack` | scripts/status.py:57 | A record without `\r`, appended to a log that does not end in `\r`, passes the newline translation unchanged. |
| `RoundTrip.AppendRecordAddsEntry` | scripts/verify.py:235-244 | Appending an image's record to any log not ending in `\r` extends the image's zone's entries, as read back after newline translation, by that image's entry and leaves every other zone's entries unchanged. |
| `RoundTrip.SingleRecord` | scripts/status.py:50-94 | A log holding one record reads back, after newline translation, as that one entry under its zone. |
| `Text.Split` | scripts/status.py:60 | `str.split` gives at least one piece, and no piece contains the separator. |
| `Text.JoinSplit` | scripts/status.py:61 | Joining the pieces of a split with the separator gives back the text. |
| `Text.NatToStringRoundTrip` | scripts/verify.py:237 | An `int` written with `str()` reads back with `int()`. |
| `Text.ScoreMarkerIndexFrom` | scripts/verify.py:117 | The reported `X:\s*(\d+)/50` match is the leftmost one. |
| `Text.StripEndAppend` | scripts/status.py:61 | Trailing white space is stripped from the last part only, when that part holds a non-space. |
| `Text.NewlinesRemoveReturns` | scripts/status.py:57 | After newline translation no `\r` is left. |
| `Text.NewlinesKeepPlainText` | scripts/status.py:57 | Text without `\r` is left as it is. |
| `Text.NewlinesAppend` | scripts/status.py:57 | The translation of two texts joined is the two translations joined, when the first does not end in `\r` (no `\r\n` pair is split). |
| `Text.NewlinesExample` | scripts/status.py:57 | `a\r\nb\rc` reads as `a\nb\nc`. |

## Left out

- The Gemini calls (`generate_content`) are foreign calls. Each becomes a parameter: a `VerifyReply` value for verification, and a function from prompt text to a `GenReply` for generation.
- `json.loads` and the reads of the decoded object are an oracle `Loads` from the candidate text to a `Decoded` outcome. A decode error is `DecodeError`, and a `total` that `int()` rejects with ValueError is a `None` total. An exception the `except` at `scripts/verify.py:113` does not catch (`int(None)`, `.upper()` on a non-string, `.get` on a non-object, `"; ".join` over non-strings) is `ReadError` with its message. `verify_image`'s `except` turns it into UNKNOWN, 0, the message, raw "".
- Image loading, RGB conversion, resizing and JPEG encoding (`load_image`, `image_to_bytes`, the save in `generate`) are PIL calls on pixel data. Only which part is saved, and under what name, is modelled.
- Filesystem work is replaced by values:
  - folder listings and globs are lists of names;
  - prompts and the verify log are strings, "" or `None` when the file is missing;
  - `mkdir`, `shutil.move` and appending to a log become a returned flag and the returned record text.
- `random.sample` in `generate.py`'s `get_images` (`scripts/generate.py:93`) is nondeterministic and is left out with the rest of `generate`'s image sampling. `verify.py`'s own `get_images` has no sampling: `Verify.ReferencePhotos` takes its arguments as the folders' sorted listings (`scripts/verify.py:71-79`) and keeps the first two.
- `get_images`, `count_images` and `get_zone_images` are directory scans. Their results are parameters: image counts per folder are a `dirCount` function or naturals.
- The generated and rejected columns of the status table print list lengths and are not modelled.
- The generation log written in `generate` (`datetime.now()` and the counts in it) is I/O with a clock.
- The sampling of inspiration and layout images in `generate` is I/O; only the prompt text reaches the model call.
- `scripts/annotate.py` and `run_annotation` make API calls and name their outputs; they have no decision logic. The count `run_annotation` returns only selects a warning message, so the model does not carry it.
- argparse, the dotenv key check, printing and the console messages are left out.
- `handle_verdict`'s `", ".join` (`scripts/verify.py:239-241`) cannot raise in the program: `parse_verdict` has already run `"; ".join` on the same lists under the same truthiness guards (`scripts/verify.py:99-102`), and a non-string there is caught at `scripts/verify.py:219-221`, which gives empty lists. The model's records hold lists of strings throughout.
- `Generate.GenerateDesign`: the `mkdir` calls and the glob in `generate` are filesystem operations whose failure is not modelled; a failure of PIL or of the log append on the first image part is the `saveOk` parameter.
- Unicode: `\s` and `str.strip` use Python's white-space set. `\d`, `str.upper` and `re.IGNORECASE` are modelled on ASCII only, so non-ASCII digits and case pairs are not captured.
- `Verify.VerifyImage` models the reply's parts by their text. The `NoCandidates` case's text (`response.text` or `str(response)`) is a parameter.
- `RoundTrip.AppendRecordAddsEntry`, `RoundTrip.SingleRecord`: the requirement that no later field of the record contains `\n## ` is stated on the whole chunk after the marker, not field by field. The round trip also requires that the record holds no `\r` and that the log before it does not end in `\r`: newline translation would turn a `\r` before `## ` in feedback or raw text into a block boundary, and a `\r` at the end of the log would swallow the record's leading `\n`. Such logs are modelled (`Status.LogBlocks`) but no round trip is claimed for them.
- `RoundTrip.BlockOfRecord`: the round trip is proved for totals ≥ 0. A negative JSON total is written as `-n`, which `Score:\s*(\d+)/50` does not match on that line. The entry's score is then the first `Score: n/50` on a later line of the block (inside the feedback or the raw text, say), or 0 when there is none (`scripts/status.py:73-78`).
- Feedback-driven retries and choosing the best of several attempts are promised by the scripts' messages (`scripts/pipeline.py:9`, `:157`) but not done by their code, so they are not modelled.
