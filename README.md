# Lich5 documentation generator: a verified model of its core

The Lich5 documentation generator sends Ruby source files to a language-model
provider and saves the documented code it gets back. It keeps a manifest of the
files it has processed, so a later run can skip them. It checks the output of
`yard stats`, and it reads its settings from a YAML configuration with defaults
for everything. This project models the sequential core of that program in
Dafny and proves what that core promises:

- `text.dfy`: the Python string operations the core uses, on ASCII text.
  - Module `Wrappers`: `Option` and `Result`.
  - Module `Text`: `strip`, `lower`, `in`, `split('\n')`, `'\n'.join`, a list filter, and the regex classes `\s`, `\d` and `\b`.
- `chunker.dfy` (module `Chunker`): `should_chunk_file` and `chunk_ruby_file`.
  - The loop is a method proved against a specification. The specification is the line spans between the cuts, and the cuts are derived from the nesting counter, the header flag and the size threshold.
- `extract.dfy` (module `Extract`): `extract_ruby_code` and the comment-line filter of `generate_yard_docs`.
  - `re.findall` is modelled as a scan of matches, each a `` ```ruby `` fence, the whitespace after it and the first closing fence.
- `generator.dfy` (module `Generator`): the generator's manifest state as a class.
  - It covers `__init__`, `is_file_processed`, `mark_file_processed` and the counting loop of `process_directory`.
  - The loop is proved against a fold, `Run`, whose properties are separate lemmas.
- `validation.dfy` (module `Validation`): `ValidationWarning`, `ValidationResult` and its properties, and `YARDValidator._parse_yard_output`.
  - The loop is proved against a fold, `Outcome`: the tally of the lines (`Tallied`), or `None` once `float()` raises on a line's percentage.
- `config.dfy` (module `Config`): the configuration records, `_parse_config`, `_create_default_config`, `_default_json_schema` and `get_provider_config`.
  - `get_provider_config` takes the configuration as a parameter.

Modelling choices:

- Strings are `seq<char>`.
- A YAML document is a record of sections. Each field is an `Option`, and a missing section is one whose fields are all `None`.
- A raised exception becomes an `Err` or `None` value.
- The clock, the output files that exist and the result of `process_file` for each path are parameters of the methods that need them.

Line splitting: `chunk_ruby_file` splits with `str.splitlines()` (generate_docs.py:196), while `should_chunk_file` counts `'\n'`-separated segments.

- `splitlines()` also ends lines at `"\r\n"`, `"\r"`, `"\v"`, `"\f"`, `"\x1c"` to `"\x1e"`, `"\x85"`, `"\u2028"` and `"\u2029"`, and the model does the same (`Chunker.SplitLines`).
- So the round trip "the chunks joined with `'\n'` give back the file" holds only when `'\n'` is the only line end. That is what `Chunker.ChunksRejoin` requires.

## Model

| member | source | states |
|---|---|---|
| Text.LStrip | src/validation.py:255 | `lstrip` removes exactly the leading whitespace: the result is a suffix, it does not start with whitespace, and everything removed is whitespace |
| Text.RStrip | src/validation.py:255 | `rstrip` removes exactly the trailing whitespace: the result is a prefix, it does not end with whitespace, and everything removed is whitespace |
| Text.StripEmptyIffBlank | src/validation.py:255-257 | a line strips to the empty string exactly when it is all whitespace |
| Text.Lower | src/validation.py:261 | `lower()` keeps the length and lower-cases each character in place |
| Text.IndexOf | src/validation.py:261 | substring search returns the first occurrence at or after the start, and `None` only when there is no occurrence |
| Text.SpaceRunEnd | src/validation.py:274 | the `\s*` run starting at `i`: it is all whitespace, and it ends at the end of the string or at a non-space |
| Text.DigitRunEnd | src/validation.py:274 | the `\d+` run starting at `i`: it is all digits, and it ends at the end of the string or at a non-digit |
| Text.SplitNl | src/validation.py:252 | `split('\n')` gives one more piece than there are newlines, and no piece holds a newline |
| Text.JoinSplitNl | src/validation.py:252 | `'\n'.join(s.split('\n')) == s` for every string |
| Text.JoinNlAppend | generate_docs.py:233 | joining two non-empty line lists puts exactly one `'\n'` between their joins |
| Text.KeywordAtFirstWord | generate_docs.py:209 | for a keyword `kw`, the line's first word is `kw` exactly when `^\s*kw\b` matches |
| Text.FirstWordLStrip | generate_docs.py:209 | the first word after the indentation is the leading `\w*` of the `lstrip`ped line |
| Text.Filter | generate_docs.py:322-329 | the filter keeps exactly the elements that pass the test and no others |
| Text.FilterAppend | generate_docs.py:429-432 | filtering distributes over concatenation, so the kept elements stay in input order |
| Chunker.ShouldChunkFile | generate_docs.py:179-183 | a file is chunked exactly when it has at least 500 newlines, that is more than 500 `'\n'`-separated segments |
| Chunker.SplitLines | generate_docs.py:196 | `splitlines()` gives no line exactly when the text is empty |
| Chunker.LinesFromNoBreak | generate_docs.py:196 | no line returned by `splitlines()` contains a line boundary |
| Chunker.SplitLinesRejoin | generate_docs.py:196 | when `'\n'` is the only line end, the lines joined with `'\n'` are the text up to one final newline |
| Chunker.KindsAt | generate_docs.py:209-213 | a line counts as an opener exactly when it matches `^\s*(class\|module\|def)\b`, and as a closer exactly when it matches `^\s*end\b` and is not an opener |
| Chunker.NestingStep | generate_docs.py:209-213 | each opener raises the counter by 1 and each `end` line lowers it by 1; the header flag clears at the first opener |
| Chunker.CleanStep | generate_docs.py:224-231 | the loop's test, made from the counter and the header flag after line `i`, is the clean-boundary condition of line `i`: counter at most 1, a declaration seen, and an `end` at `i` or a def/class/module at `i + 1` |
| Chunker.NextCut | generate_docs.py:222-236 | the next cut is the first line at or after `i` where the chunk has at least `chunkSize` lines and a clean boundary is reached, and no cut falls before it |
| Chunker.SpansTile | generate_docs.py:207-240 | the chunk spans cover all the lines in order, without gap or overlap, and each span holds at least one line |
| Chunker.ChunkSpans | generate_docs.py:207-240 | the spans of `chunk_ruby_file` tile the lines from the first to the last |
| Chunker.ChunkCuts | generate_docs.py:224-236 | every chunk but the last holds at least `chunkSize` lines and ends at a clean boundary |
| Chunker.ChunkCutEarliest | generate_docs.py:222-236 | a chunk is cut as soon as the size and boundary conditions hold, and not later |
| Chunker.TextsAt | generate_docs.py:233-234 | chunk `k` is the lines of span `k` joined with `'\n'` |
| Chunker.TextsRejoin | generate_docs.py:233-240 | the chunk texts joined with `'\n'` are the covered lines joined with `'\n'`: no line is lost, repeated or moved |
| Chunker.ChunksNonEmpty | generate_docs.py:238-242 | the result is never an empty list |
| Chunker.ChunksRejoin | generate_docs.py:196-242 | when `'\n'` is the only line end, the chunks joined with `'\n'` give back the file up to one final newline |
| Chunker.WalkSpans | generate_docs.py:203-240 | from every state the loop can reach, finishing the loop gives the chunks of the span specification |
| Chunker.ChunkLines | generate_docs.py:196-240 | the loop over the lines, with its counter, header flag and current chunk, returns exactly the texts of the specified spans |
| Chunker.ChunkRubyFile | generate_docs.py:185-242 | `chunk_ruby_file` returns the specified chunks, never an empty list, and they rejoin to the file when `'\n'` is the only line end |
| Extract.NextBlock | generate_docs.py:315 | one search for `` ```ruby\s*(.*?)``` `` finds, at or after the start, an opening fence, the whole whitespace run after it, and the first closing fence after that |
| Extract.RubyMatches | generate_docs.py:315 | every match `re.findall` collects is such a match, at or after the start |
| Extract.RubyBlocksFound | generate_docs.py:315-317 | wherever a `` ```ruby `` fence is followed by a closing fence, at least one block is found |
| Extract.RubyBlockShape | generate_docs.py:315 | every block found is the text between the whitespace after a `` ```ruby `` fence and the first closing fence after it |
| Extract.RubyBlocksNoFence | generate_docs.py:315 | no block holds a closing fence, because the lazy body stops at the first one |
| Extract.RubyBlocksIffPair | generate_docs.py:315-317 | blocks are found exactly when a `` ```ruby `` fence is followed somewhere by a closing fence |
| Extract.LongestIndex | generate_docs.py:317-319 | `max(..., key=len)` picks a longest block, and the first one among equally long blocks |
| Extract.ExtractRubyCode | generate_docs.py:312-331 | the extracted code has no whitespace at either end, in both branches |
| Extract.ExtractLongest | generate_docs.py:315-319 | a reply with a complete `` ```ruby `` … `` ``` `` pair gives the stripped longest block, the first of equally long ones |
| Extract.ExtractFallback | generate_docs.py:321-331 | a reply without a complete pair gives its lines minus the prose lines, in order, joined with `'\n'` and stripped |
| Extract.StripTrims | generate_docs.py:319 | `strip()` leaves no whitespace at either end |
| Extract.ProseFallback | generate_docs.py:315-317 | a reply without a `` ```ruby `` fence yields no block, so the fallback applies |
| Extract.ExtractFenced | generate_docs.py:315-319 | a reply that is one fenced Ruby block around `code` (with no closing fence inside) extracts to `code.strip()` |
| Extract.YardComments | generate_docs.py:429-432 | the YARD filter collects exactly the lines whose stripped text starts with `#`, in order |
| Extract.YardFile | generate_docs.py:434-437 | a `.yard` file is written exactly when some comment line was found, and it holds those lines joined with `'\n'` |
| Extract.YardCommentsIdempotent | generate_docs.py:429-432 | filtering the comment lines a second time changes nothing |
| Generator.AddFailed | generate_docs.py:124-128 | a failure appends the path only when it is absent: the old list is a prefix, membership gains exactly the path, and a list without duplicates keeps none |
| Generator.RunProcessedBound | generate_docs.py:367-379 | each file adds at most one to the `processed` counter |
| Generator.RunGrows | generate_docs.py:369-392 | the loop drops no recorded path and only extends the manifest's failed list and the failed-file names |
| Generator.RunNoDuplicates | generate_docs.py:369-392 | the manifest's failed list stays free of duplicates |
| Generator.RunCovers | generate_docs.py:369-392 | after the loop every file is either recorded as processed or listed as failed in the manifest |
| Generator.SuccessCount | generate_docs.py:377-379 | the number of successful files is at most the number of files |
| Generator.RunRebuildCounts | generate_docs.py:369-379 | outside incremental mode `processed` counts exactly the files whose processing returned non-empty code |
| Generator.RunCounts | generate_docs.py:369-379 | in either mode, including the default incremental one, `processed` grows by the number of files minus those that reach the failure branch; skipped files count as processed |
| Generator.FailuresAlongBound | generate_docs.py:376-390 | only a file whose processing gave no non-empty code reaches the failure branch |
| Generator.FailuresAlongRebuild | generate_docs.py:369-390 | outside incremental mode exactly the files without non-empty code reach the failure branch |
| Generator.RunCountsSuccesses | generate_docs.py:369-379 | in either mode `processed` grows by at least the number of successful files |
| Generator.DocumentationGenerator.constructor | generate_docs.py:44-46 | incremental mode is on only when requested and no forced rebuild is requested; the failed-file list starts empty |
| Generator.DocumentationGenerator.IsFileProcessed | generate_docs.py:97-112 | a file is skipped exactly when incremental mode is on, its path is in `processed_files` and its output exists; never during a forced rebuild |
| Generator.DocumentationGenerator.MarkFileProcessed | generate_docs.py:114-128 | success sets only that path's entry (time and provider) and leaves the failed list alone; failure adds the path to the failed list only if absent and leaves `processed_files` alone |
| Generator.DocumentationGenerator.ProcessDirectory | generate_docs.py:333-406 | no files gives the two-key statistics and changes nothing; otherwise the manifest, the failed names and the statistics are those of the loop's fold |
| Validation.ValidationResult.TotalIssues | src/validation.py:79-92 | there are no issues exactly when `has_errors` and `has_warnings` are both false; each list's length bounds the total |
| Validation.Verdict | src/validation.py:70-77 | a result built from `valid` alone has no warnings, no errors, no issues and an undocumented count of 0 |
| Validation.LocatedFromFirst | src/validation.py:274 | the lazy file group of `(.+?):(\d+):\s*(.+)` ends at the first place where the rest of the pattern can match |
| Validation.LocatedFromNone | src/validation.py:274 | with no such place, the pattern does not match |
| Validation.LocatedFormat | src/validation.py:274-276 | a line `file:digits: msg` (colon-free file, message starting with a non-space) parses back to `file`, the number and `msg` |
| Validation.LineWarnings | src/validation.py:274-289 | a line adds at most one warning, and it has type `warning` |
| Validation.LocatedErrors | src/validation.py:274-289 | the located rule adds at most one error, and it has type `error` |
| Validation.LocatedLineEntry | src/validation.py:274-289 | a `file:line: message` line yields exactly one entry with the parsed line number: an error when the message mentions `error` or `invalid`, otherwise a warning |
| Validation.LineErrorAdded | src/validation.py:291-307 | a syntax/parse or `@param` complaint adds a line-less error that quotes the line, after the located entry; both rules can fire on one line |
| Validation.AddLineTypes | src/validation.py:277-307 | one line adds only warnings of type `warning` and errors of type `error` |
| Validation.TalliedTypes | src/validation.py:277-307 | every entry in `warnings` has type `warning` and every entry in `errors` has type `error` |
| Validation.TalliedIgnoresBlank | src/validation.py:254-257 | empty or whitespace-only lines add nothing: dropping them leaves warnings, errors and the count unchanged |
| Validation.TalliedUndocumentedLast | src/validation.py:261-265 | the undocumented count is the number from the last line that reports one |
| Validation.TalliedUndocumentedNone | src/validation.py:249-265 | with no line reporting an undocumented count, the count is 0 |
| Validation.DigitDotRunEnd | src/validation.py:269 | `[\d.]+` takes the whole run of digits and dots |
| Validation.PercentFrom | src/validation.py:269 | the group of the leftmost match of `([\d.]+)%\s*documented` is a non-empty run of digits and dots |
| Validation.PercentNeedsSign | src/validation.py:269-271 | a line without `%` never raises |
| Validation.PercentTwoDots | src/validation.py:269-271 | `1.2.3% documented` matches and `float("1.2.3")` raises |
| Validation.PercentWellFormed | src/validation.py:269-271 | `100.00% documented` matches and parses without raising |
| Validation.ParseResult | src/validation.py:309-320 | `valid` holds exactly when there is no error |
| Validation.ParseLine | src/validation.py:255-307 | the loop body strips the line and skips it when empty; it raises exactly when `float()` rejects the percentage, and otherwise adds the undocumented count, located entry, syntax error and `@param` error in that order |
| Validation.TallyLines | src/validation.py:254-307 | the loop over the output lines computes the outcome fold: the tally, or a raise once a line raises |
| Validation.OutcomeNone | src/validation.py:254-271 | the loop raises exactly when some stripped line has a percentage `float()` rejects |
| Validation.OutcomeTallied | src/validation.py:254-307 | when nothing raises, the loop ends with the tally of all lines |
| Validation.OutcomeNoneStays | src/validation.py:269-271 | a raise ends the parse: no later line changes the outcome |
| Validation.ParseYardOutput | src/validation.py:236-320 | `_parse_yard_output` raises exactly when some line's percentage does not parse, and otherwise returns the tally of `output.split('\n')`, with `valid` exactly when there is no error |
| Config.ParseProviderDataOf | src/config.py:197-210 | a provider entry that gives every field parses to exactly those values |
| Config.ParseProviderEmpty | src/config.py:198-210 | an empty provider entry takes model `unknown`, 4096 tokens, 1 worker, 60 per minute, no daily limit, structured output, 3 retries and delay 5 |
| Config.ParsedProvidersKeys | src/config.py:194-210 | the providers loop parses exactly the names in the document |
| Config.ParsedProvidersLast | src/config.py:197-210 | a provider's parsed entry comes from the last item that names it |
| Config.WithBuiltins | src/config.py:212-247 | the four inserts add exactly the four built-in names, never replace an entry already present, and use the built-in defaults for those that are absent |
| Config.DefaultJsonSchemaShape | src/config.py:292-315 | the default schema is named `yard_comments` and asks for a `comments` array whose items require `line_number`, `anchor`, `indent` and `comment` |
| Config.ParseConfig | src/config.py:173-284 | `_parse_config` yields the fully defaulted configuration, and it always holds `openai`, `anthropic`, `gemini` and `mock` |
| Config.CreateDefaultConfig | src/config.py:287-289 | the default configuration is that of the empty document: the default paths, processing, anchor matching (5, 10), timeouts (10, 30, 300), validation (true, true, 1, false), schema and exactly the four built-in providers, openai with `gpt-4o-mini`, 16384 tokens and 8 workers |
| Config.NamedProviderKept | src/config.py:197-213 | a provider the document names keeps its own parsed entry, even when it has a built-in name |
| Config.CustomMockKept | tests/test_config.py:142-148 | a document that configures `mock` with 1024 tokens and 2 workers gets that entry with the remaining defaults, not the built-in `mock` |
| Config.ConfigProviderNames | src/config.py:194-247 | the parsed providers are exactly the document's names plus the four built-ins |
| Config.GetProviderConfig | src/config.py:328-344 | the lookup succeeds exactly for a present name and returns its entry; otherwise it fails with `KeyError` for that name, listing the names available |
| Config.BuiltinProviderFound | src/config.py:212-247 | a built-in provider is always found in a parsed configuration |
| Config.UnknownProviderFails | src/config.py:341-343 | the lookup fails exactly for a name that is neither in the document nor built in |

## Left out

- The value of `documented_percent` (src/validation.py:250, 269-271) and the float fields `temperature` and `cost_per_1m_*` of `ProviderConfig` are not modelled. Floating-point values are outside the model. Whether `float()` raises on the matched percentage is modelled, and that raise makes `_parse_yard_output` return `None`.
- Config.GetProviderConfig: the error carries the available names as a set. The order of the list in the `KeyError` message is not modelled.
- Running `yard` (`is_yard_available`, `validate_content`, `validate_file`) and the temporary files these use are I/O and are not modelled.
- The manifest's JSON file is not modelled: its loading, its saving after every mark, and the fallback manifest on a read error. The loaded `processed_files` map and `failed_files` list are constructor parameters instead, empty when missing.
- `process_file` is not modelled: its provider calls, its prompts and the `documentation` dictionary it fills. Its outcome for each path is the `results` parameter of `ProcessDirectory`. `None` stands for a raised exception, which also appends the file's name to `failed_files`.
- The output-file writes of `process_directory` are not modelled as I/O. The names written during the run, plus the `existing` parameter, decide whether an output exists.
- The Gemini feasibility check and its `input()` prompt (generate_docs.py:353-363) are not modelled. A declined run returns the same two-key statistics as an empty directory.
- `elapsed_time` and the `metadata.json` dump (generate_docs.py:397, 402, 407-414) are not modelled. They are a clock and I/O.
- Discovering files with `rglob` is not modelled. The files are a parameter, in the order `rglob` returns them.
- Logging, `print_summary`, `main`, `build_html.py` and the provider modules are not modelled.
- YAML loading and the `ConfigManager` singleton (`load`, `get`, `reload`) are not modelled. The document is a typed record, and YAML values of an unexpected type are not modelled. A section given as `null` is also not modelled; in the source it raises `AttributeError`.
- `json_schema`: a schema supplied in the document is kept as it is, as a `Json` value. Only the default schema's shape is stated.
- The `providers` mapping is a sequence of name/entry items. A repeated name keeps the last entry, which is what a Python dict built from the same items does.
- `Lower`, `IsSpace`, `IsDigit` and `IsWordChar` treat ASCII text as Python does. Non-ASCII case mappings and Unicode whitespace and digits are not modelled.
- Chunker.ChunksRejoin: the round trip is stated only for files whose only line end is `'\n'`. With other line ends, `splitlines()` turns each of them into `'\n'` in the joined chunks.
- Generator.DocumentationGenerator.ProcessDirectory: `process_file` is called once per file that is not skipped, and its outcome for a path is fixed for the run.
- The methods named by the test suite but absent from the source are not modelled: anchor matching, insertion-line search, comment insertion, JSON sanitising, YARD stripping and code hashing.
