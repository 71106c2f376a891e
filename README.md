# soar.php in Dafny

soar.php connects phpMyAdmin to the SOAR SQL analyzer. It has two classes.

- **`Soar`**:
  - merges caller options over three defaults (`report-type=json`, `allow-online-as-test=true`, `sampling=false`);
  - freezes the analyzer's command line (the executable path, a space, and one `-key=value` flag per option) when the object is built;
  - prepares a statement: trim, drop one leading `explain` in any letter case, trim again;
  - pipes the statement to the analyzer and decodes its answer. In `json` mode a failed or falsy decode becomes `[[]]`.
- **`SoarHtml`**:
  - scores a decoded report: 100, minus 5 points per severity level of every entry, never below 0;
  - keeps the last entry whose key contains `EXP` as the explain block;
  - sorts the other findings by descending level;
  - renders the score heading, the explain block and the findings table.

The phpMyAdmin glue at the end of the file picks how the analyzer learns the database: an inline DSN, or a `soar.yaml` side file when the password contains `@`, `:` or `/`. The glue also defines `get_analyzed_sql()`.

Files:

| file | module | what it holds |
|---|---|---|
| `wrappers.dfy` | `Wrappers` | `Option` |
| `php_strings.dfy` | `PhpStrings` | `trim`/`ltrim`/`rtrim`, the case-insensitive prefix test, `strpos`, `intval`, integer rendering, `implode`/`explode` |
| `soar_bridge.dfy` | `SoarBridge` | the options array and `array_merge`, the flag string, the SQL strip, the decode step, class `Soar` |
| `findings.dfy` | `SoarFindings` | severity levels, the explain/ordinary partition, the score, the `usort` by level |
| `markup.dfy` | `ExplainMarkup` | the four `preg_replace` passes of `asExplainHtml()` as leftmost, non-overlapping scanners |
| `soar_html.dfy` | `SoarHtmlView` | the HTML fragments, the version-dependent margin, class `SoarHtml`, whole-report scenarios |
| `host_glue.dfy` | `PmaHost` | the DSN/port decision and `get_analyzed_sql()` |

Where state changes in place, the model keeps it that way:

- `Soar` is a class whose `config` and `cmd` fields are updated by the constructor and by `Config`.
- `SoarHtml` is a class whose `ParseResult` writes `num`, `explain` and `analysis`.
- The loops of `buildConfig()`, `parseResult()`, `asItemHtml()` and `get_analyzed_sql()` are `for` loops. Each is proved against a function that specifies its result.

A PHP array with string keys is a sequence of (key, value) pairs in insertion order. The analyzer's report is a sequence of (key, finding) pairs. A finding is a map from field names to text, and a JSON list has the keys `"0"`, `"1"`, ….

## Model

| member | source | states |
|---|---|---|
| PhpStrings.TrimStart | soar.php:50 | The result is a suffix of the input. Only trim characters were dropped, and it does not start with one. |
| PhpStrings.TrimEnd | soar.php:50 | The result is a prefix of the input. Only trim characters were dropped, and it does not end with one. |
| PhpStrings.Trim | soar.php:50 | `trim()` output neither starts nor ends with a trim character and is no longer than the input. |
| PhpStrings.TrimIsMiddle | soar.php:50 | Whenever a string is blanks, a middle part with non-blank ends, then blanks, `trim()` returns exactly the middle part. |
| PhpStrings.TrimIdempotent | soar.php:50 | Trimming twice is trimming once. |
| PhpStrings.TrimStartEndCommute | soar.php:50 | `ltrim(rtrim(s))` equals `trim(s)`. |
| PhpStrings.IntVal | soar.php:88 | Defines `intval()` of a string: leading whitespace is skipped, then an optional sign and the longest run of digits are read; no digits give 0. |
| PhpStrings.IntValRoundTrip | soar.php:88 | `intval()` reads any rendered integer back as that integer, negative ones included. |
| PhpStrings.IntValNoDigits | soar.php:88 | `intval()` of a string without digits is 0, whatever whitespace or sign it holds. |
| PhpStrings.NatToString | soar.php:129 | An integer's decimal text is non-empty and all digits. It has no leading zero, and its digits have the integer's value. |
| PhpStrings.SplitJoin | soar.php:43 | `explode` on the separator undoes `implode` when no item contains the separator. |
| PhpStrings.JoinSplit | soar.php:110 | `implode` undoes `explode` for every string. |
| SoarBridge.Put | soar.php:35 | Assigning `$c[$k] = $v` keeps the key order. It appends `k` only when it is new, makes `k` map to `v`, and leaves every other key's value alone. |
| SoarBridge.Merge | soar.php:35 | `array_merge` keeps the base keys in place, followed by the caller's new keys in first-appearance order. A key takes the caller's last value for it, or else keeps the base value. |
| SoarBridge.NewKeysMembers | soar.php:35 | A key is added by the merge if and only if the caller gives it and the base lacks it. |
| SoarBridge.MergeKeys | soar.php:35 | Merging never removes or duplicates a key. A key is in the result if and only if it is in the base or in the caller's options. |
| SoarBridge.FlagRoundTrip | soar.php:41 | One `-key=value` item reads back as its option at its first `=`, whatever the value holds, when the key has no `=`. |
| SoarBridge.FlagStringRoundTrip | soar.php:38-44 | When keys have no space or `=` and values have no space, splitting the flag string on spaces and each item at its first `=` gives back the options. |
| SoarBridge.DefaultFlagString | soar.php:4-8 | With the defaults alone the flags are exactly `-report-type=json -allow-online-as-test=true -sampling=false`. |
| SoarBridge.StripExplain | soar.php:50 | The result is a suffix of the input. Exactly 7 characters are cut off if and only if the text starts with `explain` in any letter case, even one that only starts a word; otherwise nothing is cut. |
| SoarBridge.PrepareSql | soar.php:50 | The prepared statement neither starts nor ends with a trim character. |
| SoarBridge.PrepareSqlPlain | soar.php:50 | A statement whose trimmed text does not start with `explain` is only trimmed. |
| SoarBridge.PrepareSqlExplain | soar.php:50 | Blanks, one `explain` in any case, and a rest give the trimmed rest. Only this first `explain` is removed. |
| SoarBridge.DecodeReport | soar.php:58 | In `json` mode the result is always a truthy decoded value. It is the decoded value when that is truthy, and exactly `[[]]` when the decode failed or is falsy. In any other mode it is the raw output, unchanged. |
| SoarBridge.Soar.constructor | soar.php:11-15 | The options are merged over the defaults, and the command line is the path, a space and the flag string of the merged options. |
| SoarBridge.Soar.Config | soar.php:34-36 | The options become the merge of the old options and the new ones. Keys stay unique and the three defaults stay at the front. The command line is unchanged. |
| SoarBridge.Soar.BuildConfig | soar.php:38-44 | The loop yields the items of the current options joined by single spaces. |
| SoarBridge.Soar.Analysis | soar.php:49-59 | The analyzer is run with the command line fixed at construction on the prepared statement. Its output is decoded under the report type the options hold now. |
| SoarBridge.ReconfiguredAnalysis | soar.php:58 | After `config()` switches the report type to `text`, the command line still carries `-report-type=json`, and `analysis()` returns the raw output. |
| SoarFindings.RemoveLs | soar.php:88 | No `L` or `l` is left, text without them is unchanged, and every other character is kept as often as it occurs. |
| SoarFindings.RemoveLsKeepsOthers | soar.php:88 | Only characters of the severity appear, and every character other than `L`/`l` is kept in its order: it stands right after what is kept of the text before it. |
| SoarFindings.RemoveLsAppend | soar.php:88 | The deletion works piece by piece: cleaning a concatenation is cleaning each piece and concatenating. |
| SoarFindings.SeverityLevel | soar.php:88 | Defines the level of a finding: `intval` of its `Severity` field (empty when absent) with every `L` and `l` deleted. |
| SoarFindings.IsExplainKey | soar.php:90 | Defines the explain class: the key contains `EXP`. |
| SoarFindings.SeverityOfLevel | soar.php:88 | A severity `L<n>` or `l<n>` has level n. |
| SoarFindings.SeverityWithoutDigits | soar.php:88 | A severity with no digit, or a missing one, has level 0. |
| SoarFindings.SumLevels | soar.php:88-89 | Defines the total that is deducted: the sum of the levels of all entries, explain-class ones included. |
| SoarFindings.ExplainSlot | soar.php:90-91 | Defines `$explainItem`: the finding of the last entry whose key contains `EXP`, or the empty array. |
| SoarFindings.ExplainSlotIsLast | soar.php:90-91 | The explain slot holds the finding of the last entry whose key contains `EXP`. |
| SoarFindings.ExplainSlotOfEntries | soar.php:90-91 | The slot is the last explain-class finding, or empty when there is none. |
| SoarFindings.Ordinary | soar.php:92-95 | Every ordinary finding carries as its level its own parsed severity, and there are no more of them than entries. |
| SoarFindings.NoExplainKeys | soar.php:87-95 | Without any `EXP` key the slot stays empty, and every entry is an ordinary finding at its own position with its level. |
| SoarFindings.PartitionComplete | soar.php:87-95 | Every entry lands on exactly one side: the ordinary and explain-class findings together are the entries, counted with repetition. |
| SoarFindings.DeductionSplit | soar.php:88-95 | The deduction counts every entry: the ordinary findings' levels plus the explain-class findings' levels. |
| SoarFindings.Score | soar.php:100 | The score is 100 minus 5 times the total level, clamped at 0. It is never negative and always a multiple of 5; it is 0 exactly when the total level is at least 20, and at most 100 exactly when the total is not negative. |
| SoarFindings.ScoreNeverRises | soar.php:88-89 | One more entry of non-negative level never raises the score, and one of positive level lowers a positive score. |
| SoarFindings.DigitsHaveNoExp | soar.php:90 | A key made of decimal digits never contains `EXP`. |
| SoarFindings.ListHasNoExplain | soar.php:87-95 | A list-shaped report never fills the explain slot. Each finding becomes the ordinary finding at its position. |
| SoarFindings.InsertByLevel | soar.php:97-99 | Insertion into a list sorted by descending level keeps it sorted and adds exactly the item. |
| SoarFindings.SortByLevel | soar.php:97-99 | The sorted findings are in non-increasing level order and are a permutation of the input. |
| SoarFindings.SortByLevelStable | soar.php:97-99 | The sort is stable: the findings of each level keep their input order. |
| ExplainMarkup.FindClose | soar.php:138-141 | The search finds the least end of a lazy capture from j on, or proves that no end exists. |
| ExplainMarkup.MatchAt | soar.php:138-141 | At a position, the pattern matches with its lazy capture ending at the least possible point, or does not match at all. |
| ExplainMarkup.Apply | soar.php:138-141 | Defines one `preg_replace` pass: scanning from the left, each match is replaced by BEFORE, the capture and AFTER, and the text between matches is copied. |
| ExplainMarkup.ApplyUnmatchedPrefix | soar.php:138-141 | Text before the leftmost match is copied unchanged. |
| ExplainMarkup.ApplyMatch | soar.php:138-141 | A match is replaced by BEFORE, the capture and AFTER. CLOSE is consumed, and scanning resumes behind it. |
| ExplainMarkup.ApplyMatchLine | soar.php:138-140 | For the line patterns a capture is the rest of the line, and the newline is consumed. |
| ExplainMarkup.ApplyWithoutOpen | soar.php:138-141 | Text without OPEN's first character is copied unchanged. |
| ExplainMarkup.MarkupToHtml | soar.php:137-141 | Defines the four passes in the order of the source: `####` headings, `###` headings, `* ` bullets, then `**` bold. |
| ExplainMarkup.MarkupPlainText | soar.php:137-141 | Text with neither `#` nor `*` passes all four replacements unchanged. |
| ExplainMarkup.MarkupHeadingAndBullet | soar.php:137-141 | A `###` line and a `* ` line become an `<h3>` ending in a full-width colon and a `<ul>` item, with both newlines consumed. |
| SoarHtmlView.RowStriping | soar.php:160-162 | The table is striped: row i opens with class `odd` if and only if i is even, and with class `even` if and only if i is odd. |
| SoarHtmlView.ItemHtmlHasRow | soar.php:153-169 | Finding i has its own row, rendered with index i. The rows before it and after it sit between the table head and the closing tags. |
| SoarHtmlView.ItemHtml | soar.php:151-171 | Defines what `asItemHtml()` returns: the heading, the table head and one row per finding when there are findings, then in every case the closing tags. |
| SoarHtmlView.RowOfFiveColumns | soar.php:163-165 | A row over five columns is the row opening, one cell per column in column order, and `</tr>`. |
| SoarHtmlView.RowHasFiveCells | soar.php:160-166 | A row holds the cells Item, Level, Summary, Content and Case in that order, and Level shows the stored level. |
| SoarHtmlView.VersionKey | soar.php:110-111 | Without a `.` the key is the whole version and an empty minor part. With one, the two fields joined by `.` start the version and are followed by its end or by a `.`, and neither field holds a `.`. |
| SoarHtmlView.MarginOfRelease | soar.php:108-128 | For a release `4.d` with or without a patch part, 4.8 gets `20px 0px 10px 0px`, 4.0–4.5 get `0px 0px 0px 0px`, and every other minor gets `20px 0px 0px 0px`. |
| SoarHtmlView.MarginLooseMatch | soar.php:112-125 | The loose switch compares numerically, so `4.10` takes the margin of the `4.1` case. |
| SoarHtmlView.Margin | soar.php:109-128 | Defines the margin the `switch` picks: 4.8, then 4.7 and 4.6, then 4.0 to 4.5, compared as numbers, and `20px 0px 0px 0px` when no case matches. |
| SoarHtmlView.NumHeading | soar.php:129 | Defines the score heading: the margin, then the label, the score text and the unit inside an `<h3>`. |
| SoarHtmlView.ScanEntries | soar.php:84-96 | The loop's running total is 100 minus 5 times the sum of all levels. The explain item is the slot, and the collected findings are exactly the ordinary ones in input order. |
| SoarHtmlView.SoarHtml.constructor | soar.php:75-78 | The report is stored and parsed. |
| SoarHtmlView.SoarHtml.ParseResult | soar.php:83-103 | `num` is the clamped score, `explain` the slot, and `analysis` the ordinary findings sorted by level. The report and the columns are unchanged. |
| SoarHtmlView.SoarHtml.AsNumHtml | soar.php:108-130 | After parsing, the heading shows the report's score with the version's margin. |
| SoarHtmlView.SoarHtml.AsExplainHtml | soar.php:135-146 | The result is empty exactly when there is no explain finding. Otherwise it is its Case text after the four passes, inside the `margin-bottom:20px` div. |
| SoarHtmlView.SoarHtml.AsItemHtml | soar.php:151-171 | The appended output is the specified table. With no findings it is exactly `</tbody></table>`. |
| SoarHtmlView.AppendHead | soar.php:154-159 | The output gains the heading, the table opening and one header cell per column. |
| SoarHtmlView.AppendRow | soar.php:161-166 | The output gains the row's opening with its parity class, one cell per column, and `</tr>`. |
| SoarHtmlView.ExplainPlainCase | soar.php:135-143 | Explain text without `#` and `*` appears unchanged inside the div. |
| SoarHtmlView.SingleEntry | soar.php:87-99 | One entry: its level is the whole deduction, and it is either the explain slot or the only sorted finding. |
| SoarHtmlView.ScoreTexts | soar.php:129 | The scores 100, 80 and 0 are rendered as `100`, `80` and `0`. |
| SoarHtmlView.RenderEmpty | soar.php:75-171 | An empty report scores 100, has no explain block, and renders only `</tbody></table>`. |
| SoarHtmlView.OneFindingParsed | soar.php:83-103 | One ordinary finding of severity `L4` scores 80, leaves the slot empty, and is the only finding, at level 4. |
| SoarHtmlView.RenderOneFinding | soar.php:75-171 | That report renders the score 80, no explain block, and a table with that one finding. |
| SoarHtmlView.SevereParsed | soar.php:100 | One finding of severity `L25` costs 125 points, and the score stops at 0. |
| SoarHtmlView.RenderSevere | soar.php:108-130 | That report's heading shows the score 0. |
| SoarHtmlView.FallbackParsed | soar.php:83-103 | The fallback `[[]]` scores 100 and holds one ordinary finding without fields, at level 0. |
| SoarHtmlView.RenderFallback | soar.php:58 | A failed decode renders the score 100, no explain block, and one row that is empty except for the level 0. |
| SoarHtmlView.ExplainOnlyParsed | soar.php:83-103 | A report with only an `EXP` entry and no severity scores 100, fills the slot, and has no other findings. |
| SoarHtmlView.RenderExplain | soar.php:135-171 | That report, when its Case is a heading line and a bullet line, renders the score 100, the heading and the list in the div, and an empty table. |
| PmaHost.EffectivePort | soar.php:183 | The empty port and `"0"` fall back to `3306`. Any other port is kept. |
| PmaHost.InlineDsn | soar.php:191 | Defines the inline DSN `user:pwd@host:port/db`. |
| PmaHost.SideFileContent | soar.php:187 | Defines the `soar.yaml` text with the address, schema, user and password in single quotes. |
| PmaHost.ChooseDsnReadsBack | soar.php:183-192 | Whenever the inline form is chosen and user, host and port hold no delimiter of their own, the DSN names the user, password, host, port after its 3306 fallback, and database. |
| PmaHost.InlineDsnRoundTrip | soar.php:191 | For passwords the inline form is used for, and for plain user, host and port, the DSN reads back as the settings it was built from. |
| PmaHost.HostSetup | soar.php:177-194 | The side-file text is produced exactly when needed. The analyzer is built with no options in side-file mode and with the DSN otherwise. |
| PmaHost.AnalyzedSql | soar.php:199-205 | The loop yields the texts of the non-null tokens, in order. |
| PmaHost.TokensText | soar.php:199-205 | Defines the glued statement: the texts of the tokens that are not null, in order. |
| PmaHost.TokensTextAppend | soar.php:199-205 | The text of two token runs is the first run's text followed by the second's. |
| PmaHost.NullTokenIgnored | soar.php:202 | A null token anywhere leaves the text as if it were absent. |

## Left out

- The analyzer process is the parameter `run` of `Soar.Analysis`: a function from the command line and the statement to the analyzer's output. This covers `proc_open`, the pipes and `stream_get_contents` (soar.php:51-57).
- `getCmd()` is the `binary` parameter of the constructor. It detects the platform through `DIRECTORY_SEPARATOR` and `PHP_OS`, which are environment lookups.
- `json_decode` is the parameter `jsonDecode`. Only its optional result is modelled, not JSON parsing.
- A decoded top-level scalar (`JScalar`) is not passed on to `SoarHtml`, whose constructor takes the entries of an array. A finding is a map from field names to text. Non-string field values are not modelled.
- In the host glue, `$GLOBALS`, `$cfg` and `PMA_VERSION` become parameters (`Server`, `db`, `version`). `file_put_contents` of `soar.yaml` is not performed: `HostSetup` returns the file's text. Publishing `$GLOBALS['soar']` is not modelled.
- PmaHost.ParseDsn: soar.php never parses a DSN. This reader exists only to state that a built DSN carries its settings, and it splits at the first delimiters only.
- PhpStrings.IntVal: exponent notation (`"1e3"`) and saturation at the 64-bit bounds are not modelled. Neither is a fraction whose digits round up to the next integer as a double: PHP reads `"9.9999999999999999999"` as 10, the model as 9. The score is computed on unbounded integers, so overflow to float on absurd severities is not modelled either.
- `array_merge`: only string keys are modelled. PHP renumbers integer keys, and the options here never have any.
- `usort` is modelled as the stable sort of PHP 8. Before PHP 8, the order of findings of equal level was unspecified.
- SoarHtmlView.Margin: a version with leading or trailing whitespace, a sign, or a fraction with a decimal exponent is a numeric string to PHP's loose `switch`. The model treats only digit runs as numeric. Versions whose digits round to the same double as a case are not modelled either: PHP takes `4.79999999999999999` as the `4.8` case, the model gives the default margin.
- Strings are sequences of code points. The four patterns are ASCII, so scanning by code points matches the byte-wise `preg_replace` of UTF-8 text.
- SoarBridge.FlagStringRoundTrip: it needs values without spaces. soar.php:43 joins the flags unquoted into the command that soar.php:51 hands to the shell, and only passwords with `@`, `:` or `/` go to the side file (soar.php:185). A password with a space, `;` or `$` therefore reaches the shell inside `-test-dsn=`, and a `'` in the password ends the quoted YAML scalar of soar.php:187. Shell word splitting and YAML quoting are not modelled.
- `SoarBridge.Soar.constructor`, `Soar.Config`, `SoarHtml.constructor` and `SoarHtml.ParseResult` state their new state with `old`/`fresh`. Their invariants (`Valid`, `Parsed`) and the lemmas beside them carry the properties.

Behaviour of soar.php worth noting, which the model keeps:
- the `str_replace` of soar.php:88 deletes every `L` and `l` in the severity, wherever it stands, so `5L` has level 5;
- the four patterns of soar.php:138-141 carry no `^`, so a `###`, `* ` or `####` in the middle of a line starts a match;
- `asItemHtml()` with no findings returns only `</tbody></table>` (soar.php:153, soar.php:169).
