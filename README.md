# everyday-scripts in Dafny

A model of the working core of `everyday-scripts`, a collection of small
command-line tools, with proofs about that model. Each script keeps its
own module. The modules model:

- `mmm.py` (`Mmm`): the media mover. It walks a source tree and picks a
  category for each file from its guessed MIME type, or from an extension
  table. It re-roots each selected file under the destination for its
  category, then moves or copies the files in batches of `PARALLELISM`,
  keeping the counters of a `Metrics` object. It also covers the parsing of
  `TYPE=DIR` destination specifiers, the rules used to generate a
  `mime.types` file, and the choice of log level.
- `imap_tools.py` (`ImapTools`):
  - matching a From header against sender patterns;
  - loading patterns from a file and a URL;
  - choosing which message numbers to process;
  - counting senders (`stats`);
  - the delete loop, with its confirmations (`delete`), and what its
    EXPUNGE after each deletion does to the message numbers.
- `analyze_emails.py` (`AnalyzeEmails`): which ids are downloaded, the
  sender ranking built with `Counter.most_common`, and the order of the
  table rows.
- `gh_list_changed.py` (`GhListChanged`): the month filter on closed pull
  requests, files grouped by the pull requests that added them, and the
  sorted table rows.
- `photo_label.py` (`PhotoLabel`): the `TITLE_RE` title match, the label
  it yields, the JPEG directory filter, and the jobs `label_folder`
  creates.
- `split_manifest.py` (`SplitManifest`): splitting a multi-document YAML
  stream into one file per `kind`/`name`. The output directory is a class
  whose file map the commands update; the subdirectories it holds make the
  clean step fail.
- `bq_expire_table.py` and `bq_expire_partition.py` (`BqExpireTable`,
  `BqExpirePartition`, sharing `BigQuery`): setting dataset, table and
  partition expirations through a BigQuery client. The client is a class
  that holds the server's metadata and the calls made to it. The
  `--table`/`--skip` selection rule is modelled too.
- `manage_gcp_custom_metrics.py` (`GcpCustomMetrics`): listing and
  deleting custom metric descriptors.
- `scriptlib.py` (`ScriptLib`): `chunks`, the `ask` prompt loop and
  `logging_init`'s level.

Modules for the Python behaviour the scripts depend on:

- `Counter`: `collections.Counter` and `most_common`, a stable sort by
  count.
- `Sorting`: `sorted`, as a stable insertion sort.
- `PySeq`: slicing with negative and out-of-range bounds, `filter`,
  counting.
- `Strings`: `str.lower` on ASCII, `strip`, `splitlines`, `find`,
  `rfind`, `replace`, and decimal numerals.
- `Wrappers`: `Option` and `Result`.

Each command is modelled as written, including the defects listed under
"## Findings". Beside each defect stands a corrected definition with the
intended property proved about it, and a lemma that shows where the two
agree.

Services the scripts call are inputs to the model. Their answers come in
as function-typed parameters or as records. This covers IMAP servers,
BigQuery, Cloud Monitoring, the filesystem, `mimetypes.guess_type`,
`email.utils.parseaddr`, regular-expression search and console replies.

## Model

| member | source | states |
|---|---|---|
| ScriptLib.Chunks | everyday_scripts/scriptlib.py:118-125 | a zero length is an error, a negative length yields no slices, a positive one yields the consecutive slices of the input |
| ScriptLib.SlicesFlatten | everyday_scripts/scriptlib.py:124-125 | joining the slices gives back the input |
| ScriptLib.SlicesSizes | everyday_scripts/scriptlib.py:124-125 | every slice but the last has exactly `n` elements; the last has between 1 and `n` |
| ScriptLib.SlicesCount | everyday_scripts/scriptlib.py:124 | the number of slices is the ceiling of the length over `n`; there are none exactly for an empty input |
| ScriptLib.SlicesAppend | everyday_scripts/scriptlib.py:124-125 | a batch of at most `n` behind whole batches becomes exactly one more slice |
| ScriptLib.SlicesExample | everyday_scripts/scriptlib.py:121-122 | the docstring example: `range(10)` in threes ends with the slice `[9]` |
| ScriptLib.Ask | everyday_scripts/scriptlib.py:41-56 | replies are read until one is accepted: it is non-empty after lower-casing and stripping, and starts with y, n or q; that letter is returned, and every earlier reply was rejected; when the replies run out, nothing was accepted |
| ScriptLib.LogLevelThreshold | everyday_scripts/scriptlib.py:86-88 | without an explicit level, debug records are emitted exactly with `verbose`, and info and warning records always; turning `verbose` on never hides a record; an explicit level alone decides, whatever `verbose` says |
| Mmm.BaseName | everyday_scripts/mmm.py:63 | the base name holds no `/` and ends the path |
| Mmm.ExtensionSpec | everyday_scripts/mmm.py:63 | the extension is empty or a single dot-led suffix of the name; it is empty exactly when the last dot does not start an extension (no dot, or only leading dots before it) |
| Mmm.TypeForFileLowerCase | everyday_scripts/mmm.py:59-66 | every category found is lower-case and holds no `/` |
| Mmm.FromExtensionImage | everyday_scripts/mmm.py:27-30 | the extension fallback gives "image" or nothing |
| Mmm.TypeForFileGuessed | everyday_scripts/mmm.py:60-62 | a guessed MIME type yields its lower-cased part before the first `/` |
| Mmm.TypeForFileUnguessed | everyday_scripts/mmm.py:60-66 | without a guess only `.xmp`/`.dop` (in any case) give "image"; any other file has no category |
| Mmm.TypeForFileXmp | everyday_scripts/mmm.py:63-65 | an unguessed `photo.XMP` is an image |
| Mmm.TypeForFileJpeg | everyday_scripts/mmm.py:60-62 | a guessed `image/jpeg` gives "image" |
| Mmm.TypeForFileVideo | everyday_scripts/mmm.py:60-62 | a guessed `video/mp4` gives "video" |
| Mmm.TypeForFileText | everyday_scripts/mmm.py:60-62 | a guessed `text/plain` gives "text" |
| Mmm.TypeForFileDotFile | everyday_scripts/mmm.py:63-66 | a dot file named `.dop` has no extension and so no category |
| Mmm.GuessedCategory | everyday_scripts/mmm.py:60-62 | the category is the lower-cased text before the first `/` of the guessed type |
| Mmm.ReplacePath | everyday_scripts/mmm.py:121-131 | re-rooting succeeds exactly when the resolved source is a prefix of the resolved path; the result then lies under the destination and carries the same remainder; otherwise the error names both paths |
| Mmm.ReplacePathInverse | everyday_scripts/mmm.py:128-131 | re-rooting back from the destination onto the source gives the resolved original path |
| Mmm.ReplacePathUnder | everyday_scripts/mmm.py:128-131 | a resolved path under a resolved source keeps its remainder under the destination |
| Mmm.ReplacePathExample | everyday_scripts/mmm.py:125-126 | the docstring example re-roots `/Users/sandipb/a/b/c/nnnn/hello.txt` onto `/usr/bin` |
| Mmm.ReplacePathOutside | everyday_scripts/mmm.py:130 | a path outside the source is refused |
| Mmm.WalkFilesMembers | everyday_scripts/mmm.py:75-77 | a file is among those the walk yields exactly when some directory of the walk lists it, with that directory as its root; its full path is its name under that root |
| Mmm.MakeTask | everyday_scripts/mmm.py:77-80 | a file yields something exactly when its category has a destination |
| Mmm.MakeTaskSpec | everyday_scripts/mmm.py:77-82 | a selected file yields the pair (path, re-rooted path, category), or the re-rooting error |
| Mmm.ScanSelected | everyday_scripts/mmm.py:75-84 | the scan yields the pairs of the selected files, in walk order, up to and excluding the first selected file that fails |
| Mmm.ScanUnderSource | everyday_scripts/mmm.py:79-82 | when every file lies under the source nothing fails, and every selected file yields a pair |
| Mmm.ScanNoFailure | everyday_scripts/mmm.py:79-82 | without a failing file the scan ends without an error |
| Mmm.ScanAfterFailure | everyday_scripts/mmm.py:80-82 | once the scan has failed, later files change nothing |
| Mmm.AddCountsOf | everyday_scripts/mmm.py:81 | each category's count grows by the number of pairs of that category |
| Mmm.ScanTestScenario | tests/test_mmm.py:8-45 | the test's tree of six files at three directory depths, with the upper-case `.PNG` and `.MOV` names: nothing fails, every pair comes from below the source, and the destinations are the test's `all_outs` as a multiset, which is what the sorted comparison checks |
| Mmm.ScanAllSelected | everyday_scripts/mmm.py:79-82 | when every file is selected and re-rooted, the scan yields exactly those pairs, in walk order, with no failure |
| Mmm.ImageCategory | everyday_scripts/mmm.py:60-62 | any guessed `image/...` type, whatever the case of the name, gives the category "image" |
| Mmm.VideoCategory | everyday_scripts/mmm.py:60-62 | any guessed `video/...` type gives the category "video" |
| Mmm.Metrics.constructor | everyday_scripts/mmm.py:34-38 | all counters start at zero, with no category counts |
| Mmm.CountTask | everyday_scripts/mmm.py:81 | one more pair adds one to its category and leaves the other counters alone |
| Mmm.FindFile | everyday_scripts/mmm.py:77-84 | one more file extends the scan result, and the category counts follow the pairs |
| Mmm.FindFilesIn | everyday_scripts/mmm.py:76-84 | one directory's files extend the scan result, and the category counts follow the pairs |
| Mmm.FindFiles | everyday_scripts/mmm.py:69-84 | `find_files` returns the scan of the whole walk; the category counts grow by the pairs found, and nothing else changes |
| Mmm.Parent | everyday_scripts/mmm.py:103 | the parent is a prefix one component shorter (the root is its own parent) |
| Mmm.TaskOps | everyday_scripts/mmm.py:102-104 | the parent directory is always created first; the move or copy follows exactly when that call succeeds |
| Mmm.TaskFailsIff | everyday_scripts/mmm.py:102-107 | a pair fails exactly when one of the calls actually made raises |
| Mmm.MoveAFile | everyday_scripts/mmm.py:87-107 | the one matching counter goes up; a dry run makes no calls and records no error; a real run makes exactly the calls of the pair and counts one error if it fails; the action line appears exactly when it is printed; category counts are untouched |
| Mmm.MovedSpec | everyday_scripts/mmm.py:110-115 | the moved pairs are a prefix: all pairs when nothing failed, otherwise whole batches with less than a batch left over |
| Mmm.MoveBatch | everyday_scripts/mmm.py:117-118 | a batch moves every pair once, with their calls and lines in order and one error per failing pair |
| Mmm.NextMoves | everyday_scripts/mmm.py:113-118 | one batch more carries the loop state, counters, batches, calls and lines, from `i` pairs to `i + n` pairs |
| Mmm.MoveBatches | everyday_scripts/mmm.py:110-118 | the moved pairs, in batches of `PARALLELISM`, are all pairs, or only the whole batches found before an error; the counters, calls, lines and errors are exactly those of the moved pairs; the run ends crashed exactly when the scan failed |
| Mmm.MoveFiles | everyday_scripts/mmm.py:110-118 | `move_files` as a whole: the scan, then the batched moves of its pairs; category counts follow the pairs found |
| Mmm.ValidDir | everyday_scripts/mmm.py:180-189 | a directory is accepted exactly when the path is non-empty and resolves to a directory; an empty path is the "required" error |
| Mmm.ParseEntrySpec | everyday_scripts/mmm.py:169-175 | a specifier without `=` is malformed; a good one splits at the first `=`, into the lower-cased stripped type and a valid directory |
| Mmm.ParseEntryAt | everyday_scripts/mmm.py:169-175 | a specifier whose first `=` is at `k` parses into its stripped, lower-cased type and resolved directory |
| Mmm.ParseEntryExample | everyday_scripts/mmm.py:169-175 | `image = /tmp/x` is stripped on both sides |
| Mmm.ParseEntryUpperExample | everyday_scripts/mmm.py:175 | the type of `IMAGE=/tmp/y` is lower-cased |
| Mmm.ParseDestinations | everyday_scripts/mmm.py:166-177 | the loop computes the destinations of the specifiers, in order, stopping at the first bad one |
| Mmm.DestinationsAfterFailure | everyday_scripts/mmm.py:170-172 | a failed prefix is the failure of the whole parse |
| Mmm.DestinationsSucceeds | everyday_scripts/mmm.py:168-172 | the parse succeeds exactly when every specifier is good |
| Mmm.DestinationsFirstFailure | everyday_scripts/mmm.py:168-172 | the parse fails with the error of the first bad specifier |
| Mmm.DestinationsLastWins | everyday_scripts/mmm.py:175 | the last specifier of a type decides that type's directory |
| Mmm.DestinationsKeys | everyday_scripts/mmm.py:175 | the map has exactly the types the specifiers name |
| Mmm.DestinationsExample | everyday_scripts/mmm.py:175 | a later `IMAGE=...` replaces an earlier `image = ...` |
| Mmm.DestinationsMalformedExample | everyday_scripts/mmm.py:170-172 | `image` alone is refused as malformed |
| Mmm.TwoEntries | everyday_scripts/mmm.py:175 | of two specifiers for one type, the second wins |
| Mmm.RuleForSpec | everyday_scripts/mmm.py:150-158 | an element without a pattern is skipped; one without a type aborts; a `*.` glob loses every `*.`; a plain name is kept; any other glob is skipped |
| Mmm.MimeLinesKept | everyday_scripts/mmm.py:148-159 | without a missing type, one line is written per kept element, in document order, with its type and pattern |
| Mmm.DownloadMt | everyday_scripts/mmm.py:134-163 | an existing file is refused; a failed download writes nothing; otherwise the lines written and their count, or the partial lines when a type is missing |
| Mmm.MimeRuleExample | everyday_scripts/mmm.py:153-154 | `*.jpg` becomes the line `image/jpeg jpg` |
| Mmm.MimeRuleGlobExample | everyday_scripts/mmm.py:155-157 | a character-class pattern is skipped |
| Mmm.MimeRuleNoPatternExample | everyday_scripts/mmm.py:150 | an element without a pattern is skipped |
| Mmm.MainLevel | everyday_scripts/mmm.py:204-208 | `--debug` gives DEBUG, else `--verbose` gives INFO, else WARNING |
| Mmm.PrintsIffVerbose | everyday_scripts/mmm.py:97-101 | outside a dry run the action lines appear exactly with `--verbose` and without `--debug` |
| ImapTools.MatchEmailAgainstPatterns | everyday_scripts/imap_tools.py:46-53 | the flag is set exactly when some pattern matches the address; the returned patterns are exactly the listed ones that match |
| ImapTools.MatchInOrder | everyday_scripts/imap_tools.py:52 | the matching patterns keep the pattern list's order and multiplicity |
| ImapTools.MatchIgnoresCase | everyday_scripts/imap_tools.py:52 | with a case-blind matcher, addresses that differ only in case match alike |
| ImapTools.MatchWithoutAddress | everyday_scripts/imap_tools.py:50-53 | without an address the patterns are matched against "" |
| ImapTools.MatchNoneExample | everyday_scripts/imap_tools_test.py:14 | the test case where no pattern matches |
| ImapTools.MatchBothExample | everyday_scripts/imap_tools_test.py:15-19 | the test case where both patterns match, returned in order |
| ImapTools.PatternLines | everyday_scripts/imap_tools.py:212 | every loaded pattern is non-empty and stripped |
| ImapTools.NonBlankStripped | everyday_scripts/imap_tools.py:212 | every kept line is non-empty and stripped |
| ImapTools.NonBlankStrippedSpec | everyday_scripts/imap_tools.py:212 | one pattern per non-blank line; none exactly when every line is blank |
| ImapTools.PatternLinesTerminated | everyday_scripts/imap_tools.py:212 | a file written one stripped pattern per line loads back as those patterns |
| ImapTools.LoadedPatternsOrder | everyday_scripts/imap_tools.py:209-219 | the file's patterns come first and the URL's follow; a source not given adds none |
| ImapTools.LoadPatterns | everyday_scripts/imap_tools.py:209-219 | the loading method yields exactly the loaded patterns |
| ImapTools.LatestFirstAsWritten | everyday_scripts/imap_tools.py:131 | the sort as written is a permutation, descending in text order |
| ImapTools.LatestFirstAsWrittenExample | everyday_scripts/imap_tools.py:131 | as written, "9" comes before "10" although 10 is larger |
| ImapTools.StatsSelectionAsWrittenExample | everyday_scripts/imap_tools.py:131-133 | as written, keeping one message keeps "9", not "10" |
| ImapTools.NewestIsTotalPreorder | everyday_scripts/imap_tools.py:131 | the numeral order is a total preorder, so the sort is well defined |
| ImapTools.LatestFirst | everyday_scripts/imap_tools.py:131 | the corrected order is a permutation of the numbers, highest first |
| ImapTools.NumeralOrder | everyday_scripts/imap_tools.py:131 | on message numerals, numeral order is the order of their values |
| ImapTools.LatestFirstExample | everyday_scripts/imap_tools.py:131 | corrected, "10" comes before "9" |
| ImapTools.StatsSelection | everyday_scripts/imap_tools.py:129-133 | the numbers `stats` reads, as written: a front part of the descending text-order sort, so itself in descending text order and drawn from the unseen numbers; all of them without `max_emails`, `max_emails` of them (at most all) for a non-negative limit, and all but the last `-max_emails` for a negative one |
| ImapTools.DeleteSelection | everyday_scripts/imap_tools.py:232-235 | `delete` keeps the server's order, all numbers, when `max_process` is absent or zero; for any other value it makes the same selection as `stats`; it never adds a number |
| ImapTools.AsWrittenSameWidth | everyday_scripts/imap_tools.py:131 | when all numbers have the same number of digits, the text sort as written is the numeric sort, so the as-written selections keep the highest numbers there |
| ImapTools.SelectionKeepsHighest | everyday_scripts/imap_tools.py:131-133 | every number the cut keeps is at least every number it drops, and the kept numbers come from the input |
| ImapTools.Senders | everyday_scripts/imap_tools.py:137-151 | one address per message with an address in its From header, in order |
| ImapTools.SendersCount | everyday_scripts/imap_tools.py:137-151 | the count is the number of messages with an address |
| ImapTools.StatsSenders | everyday_scripts/imap_tools.py:118-163 | an unselected inbox and an empty selection are reported; otherwise the tally of the senders of the as-written selection, cut to `top_count` |
| ImapTools.StatsCounts | everyday_scripts/imap_tools.py:136-156 | each address's count is how often it sent, and the counts add up to the number of senders |
| ImapTools.DeleteMatching | everyday_scripts/imap_tools.py:194-292 | no source and an unselected inbox each end the command with nothing deleted; otherwise the messages of the as-written selection are gone through in order until the first one fetched OK without data, whose number ends the command with an error; the numbers deleted are exactly those before it that are fetched, have a matching sender and are allowed or confirmed; when no fetch lacks data, the totals count all selected and all deleted messages |
| ImapTools.ProcessMessages | everyday_scripts/imap_tools.py:242-286 | the loop processes every selected message up to and including the first one fetched OK without data (`msg_data[0][1]` raises at line 253), and reports that number; the deleted numbers, in order, are those before it that the deletion rule accepts |
| ImapTools.DeletedMatched | everyday_scripts/imap_tools.py:266-283 | a deleted message number was selected, its message was fetched and allowed or confirmed, and some pattern matches its sender |
| ImapTools.NoPatternsDeleteNothing | everyday_scripts/imap_tools.py:266-267 | without patterns nothing is deleted |
| ImapTools.AllowAllDeletesEveryMatch | everyday_scripts/imap_tools.py:279-283 | with `allow_all`, every fetched message with a matching sender is deleted without asking |
| ImapTools.ExpungeRenumbers | everyday_scripts/imap_tools.py:272-283 | as written, an EXPUNGE after each deletion renumbers the later messages: of two unseen messages and a read one, all matching, the second unseen one survives and the read one is deleted |
| ImapTools.ExpungeAfterDeletesMatches | everyday_scripts/imap_tools.py:232-283 | with one EXPUNGE after the loop, a run over the numbers of exactly the unseen messages deletes exactly the unseen messages it decides to delete, and keeps every other message in order |
| AnalyzeEmails.IdsToDownloadSpec | everyday_scripts/analyze_emails.py:37 | `[-n:]` keeps the last `n`, all for 0 or for more than there are, and drops from the front for a negative `n` |
| AnalyzeEmails.SortListingTakesOldest | everyday_scripts/analyze_emails.py:30-37 | as written, with SORT the newest-first listing cut with `[-1:]` downloads the oldest message |
| AnalyzeEmails.LatestIdsSpec | everyday_scripts/analyze_emails.py:30-37 | corrected, either listing yields the last `n` messages of the mailbox |
| AnalyzeEmails.DownloadSelection | everyday_scripts/analyze_emails.py:30-37 | for `n` from 1 up to the mailbox size, without SORT the last `n` ids of the mailbox are downloaded, and with SORT the first `n` in reverse order, that is the oldest `n`, newest first |
| AnalyzeEmails.AsWrittenWithoutSort | everyday_scripts/analyze_emails.py:35-37 | without SORT the ids as written are the latest ones, for every `num_emails` |
| AnalyzeEmails.DownloadEmails | everyday_scripts/analyze_emails.py:14-49 | one fetched message per id that the as-written listing and `[-num_emails:]` cut select, in order |
| AnalyzeEmails.AnalyzeSendersCounts | everyday_scripts/analyze_emails.py:52-61 | each row holds its sender's message count, every sender has a row, the counts add up to the number of messages, and the rows come by non-increasing count |
| AnalyzeEmails.AnalyzeSendersTies | everyday_scripts/analyze_emails.py:60-61 | senders with equal counts stay in the order of their first message |
| AnalyzeEmails.DisplayLeastFirst | everyday_scripts/analyze_emails.py:64-73 | the table shows the ranking reversed, least frequent first |
| GhListChanged.ParseMonth | everyday_scripts/gh_list_changed.py:30 | an accepted month has the `YYYY-MM` shape, and its month is between 1 and 12 |
| GhListChanged.DecemberKeepsNothing | everyday_scripts/gh_list_changed.py:31-32 | as written, December's window is empty, so no pull request is kept |
| GhListChanged.WindowIsMonth | everyday_scripts/gh_list_changed.py:30-32 | a valid time lies in the corrected window exactly when it falls in that year and month |
| GhListChanged.FilterByMonthSpec | everyday_scripts/gh_list_changed.py:19-32 | corrected, exactly the pull requests closed in that month are kept, in order |
| GhListChanged.AsWrittenBeforeDecember | everyday_scripts/gh_list_changed.py:31 | before December the written window is the corrected one |
| GhListChanged.Append | everyday_scripts/gh_list_changed.py:71 | a new name is added as the last key; a known name keeps the key order |
| GhListChanged.AppendLookup | everyday_scripts/gh_list_changed.py:59-71 | appending adds the summary to that name's list only |
| GhListChanged.AppendSize | everyday_scripts/gh_list_changed.py:71 | appending adds one summary in total |
| GhListChanged.AddFilesLookup | everyday_scripts/gh_list_changed.py:69-71 | each name gains the summary once per added file of that name |
| GhListChanged.GroupedLookup | everyday_scripts/gh_list_changed.py:59-71 | each file holds exactly the summaries of the pull requests that added it, in processing order |
| GhListChanged.GroupedSize | everyday_scripts/gh_list_changed.py:61-71 | one summary per added-file entry |
| GhListChanged.AddFilesNames | everyday_scripts/gh_list_changed.py:59-71 | a name that is a key was a key before or has summaries |
| GhListChanged.GroupedNames | everyday_scripts/gh_list_changed.py:59-71 | a file becomes a key only when some pull request added it |
| GhListChanged.ByNameIsTotalPreorder | everyday_scripts/gh_list_changed.py:75 | ordering items by name is a total preorder |
| GhListChanged.RowsCount | everyday_scripts/gh_list_changed.py:81-83 | one row per summary |
| GhListChanged.RowsSorted | everyday_scripts/gh_list_changed.py:75-83 | items sorted by name give rows sorted by file name |
| GhListChanged.SortSize | everyday_scripts/gh_list_changed.py:75 | sorting keeps the number of summaries |
| GhListChanged.TableRows | everyday_scripts/gh_list_changed.py:75-83 | the table has one row per added file entry, sorted by file name, and its items are a permutation of the grouping |
| GhListChanged.GroupAddedFiles | everyday_scripts/gh_list_changed.py:59-71 | the nested loops build exactly the grouping |
| GhListChanged.EmitRows | everyday_scripts/gh_list_changed.py:81-83 | the row loops produce exactly the rows of the sorted items |
| GhListChanged.ListChanged | everyday_scripts/gh_list_changed.py:41-85 | a missing token and a bad month are reported; otherwise the rows of the first `max_prs` pull requests in the as-written month window; for January to November those are exactly the ones closed in that month, and for December there are none |
| PhotoLabel.FirstSpaceFrom | photo_label.py:28 | the first ASCII whitespace (Python 2's `\s` on byte names: space, tab, newline, return, form feed, vertical tab) at or after `i`, or none when the rest has none |
| PhotoLabel.LastSpace | photo_label.py:28 | the last ASCII whitespace, followed only by characters that are not ASCII whitespace |
| PhotoLabel.MatchTitleSound | photo_label.py:28 | a matched name consists of its groups: four digits, a dash, a stamp, a space, the place, a space and a suffix; the stamp and suffix are non-empty and hold no ASCII whitespace (space, tab, newline, return, form feed, vertical tab) |
| PhotoLabel.MatchTitleCompose | photo_label.py:28 | a name assembled from such groups (stamp and suffix free of ASCII whitespace, place free of newlines) matches with exactly those groups |
| PhotoLabel.MatchTitleAt | photo_label.py:28 | the match is decided by the positions of the first and the last ASCII whitespace |
| PhotoLabel.LabelOfParts | photo_label.py:66-70 | an assembled name matches with its groups and is labelled `place, year` |
| PhotoLabel.NarrowSpaceExample | photo_label.py:28 | a name whose suffix holds a non-ASCII space (U+202F) still matches, that space being part of `\S+`, and is labelled "Ridge, 2017" |
| PhotoLabel.DocumentedExample | photo_label.py:8 | the documented name gets the label "Russian Ridge OSP, 2017" |
| PhotoLabel.PathJoin | photo_label.py:64-65 | the path always ends with the second part; an absolute second part replaces the first; otherwise the path starts with the first part, with one separator added unless the first part is empty or already ends in one |
| PhotoLabel.JpegsInDirSpec | photo_label.py:32-36 | exactly the regular files with a JPEG extension are kept, in listing order |
| PhotoLabel.JpegNameExamples | photo_label.py:33 | the extension test is case-exact: `.JPG` and `.jpeg` pass, `.Jpg` does not |
| PhotoLabel.ProcessImageJob | photo_label.py:62-75 | a name assembled from title groups gives a job captioned `place, year` that reads the file of that name in the input directory and writes the file of the same name in the output directory, never over its input |
| PhotoLabel.LabelFolder | photo_label.py:87-103 | identical directories are refused; a run checks both directories and creates one job per JPEG file |
| PhotoLabel.JoinDistinct | photo_label.py:64-65 | distinct normalized directories give distinct paths for one entry name |
| PhotoLabel.LabelFolderJobs | photo_label.py:87-103 | each job is the one for its JPEG file, and it never overwrites its own input |
| SplitManifest.ActionFor | everyday_scripts/split_manifest.py:19-29 | a non-empty mapping with a non-empty kind is written to its file; null and falsy documents are skipped; anything else raises |
| SplitManifest.FileNameSpec | everyday_scripts/split_manifest.py:24 | the file name is lower-case and ends in `.yaml`; names differing only in case share a file |
| SplitManifest.Run | everyday_scripts/split_manifest.py:18-29 | a run stops, if at all, at a document of the stream |
| SplitManifest.RunStays | everyday_scripts/split_manifest.py:18-29 | once a run stopped, later documents change nothing |
| SplitManifest.RunAbortsAt | everyday_scripts/split_manifest.py:21-29 | the run stops at the first raising document, keeping the files written before it |
| SplitManifest.NoAbortBefore | everyday_scripts/split_manifest.py:18-29 | without a raising document the run goes to the end |
| SplitManifest.RunFileOrigin | everyday_scripts/split_manifest.py:18-27 | every file was there at the start or is named after a written document |
| SplitManifest.RunKeepsUnwritten | everyday_scripts/split_manifest.py:24-26 | a file no document writes keeps its content |
| SplitManifest.LastWriteWins | everyday_scripts/split_manifest.py:24-26 | a file holds the last document written to it |
| SplitManifest.OutputDir.constructor | everyday_scripts/split_manifest.py:10 | the directory starts with the given files and subdirectories |
| SplitManifest.OutputDir.Remove | everyday_scripts/split_manifest.py:16 | removing deletes exactly that file |
| SplitManifest.OutputDir.Write | everyday_scripts/split_manifest.py:25-26 | writing creates or overwrites exactly that file |
| SplitManifest.OutputDir.Clean | everyday_scripts/split_manifest.py:12-17 | the entries are removed in listing order up to the first subdirectory, which `os.remove` refuses and which is returned; the files removed are exactly the ones listed before it, the rest keep their contents; without a subdirectory the directory ends empty |
| SplitManifest.SplitManifest | everyday_scripts/split_manifest.py:10-29 | when cleaning meets a subdirectory the split ends there, before any document, with the files listed before it removed; otherwise the directory ends as the run over the documents leaves it, starting empty when cleaning |
| SplitManifest.CleanRequestedByAnyValue | everyday_scripts/split_manifest.py:43-45 | any non-empty value of the clean option, even "False" or "0", asks for cleaning |
| SplitManifest.SplitCommand | everyday_scripts/split_manifest.py:32-58 | a missing directory, or one that is not a directory, stops the script with nothing changed; otherwise the split runs. Without a non-empty `--clean-output` it always ends in the split; with one it fails exactly when the listing holds a subdirectory, having removed only the entries listed before the first one; a finished split leaves the files `Run` writes over the cleaned or the old directory |
| BigQuery.ExpirationMs | everyday_scripts/bq_expire_table.py:52 | -1 days means no expiration; otherwise a whole number of days in milliseconds |
| BigQuery.PatchLaws | everyday_scripts/bq_expire_table.py:56 | an update naming no field changes nothing; sending the server's own values changes nothing; an update applied twice is applied once; naming only `expires` or only `time_partitioning` replaces just that field |
| BigQuery.Client.GetDataset | everyday_scripts/bq_expire_table.py:116 | a fresh copy of the dataset `project.dataset` exactly when the server has it, with that full reference, the dataset's own `dataset_id` and its default expiration; none where the server raises `NotFound` |
| BigQuery.Client.GetTable | everyday_scripts/bq_expire_table.py:79 | a fresh copy of the listed table's metadata |
| BigQuery.Client.UpdateDatasetExpiration | everyday_scripts/bq_expire_table.py:53 | the default expiration stored under the dataset's full reference is replaced, the tables are untouched, and the call is recorded |
| BigQuery.Client.UpdateTable | everyday_scripts/bq_expire_table.py:56 | the named fields of the local copy are stored, and the call recorded |
| BigQuery.BeforeDaysAfterUpdate | everyday_scripts/bq_expire_table.py:30 | a setting read back prints the same days with ".0"; no expiration and zero days both print "None" |
| BigQuery.ChosenSpec | everyday_scripts/bq_expire_table.py:82-87 | the skip pattern wins; without an include pattern every table not skipped is chosen; a chosen table matches the include pattern |
| BigQuery.PassesTables | everyday_scripts/bq_expire_table.py:78-90 | after the loop an eligible listed table holds its change (none in a dry run), and every other table is unchanged |
| BigQuery.PassesCalls | everyday_scripts/bq_expire_table.py:78-90 | one update call per eligible table, in listing order, none in a dry run |
| BigQuery.PassesLines | everyday_scripts/bq_expire_table.py:78-90 | one line per eligible table, in listing order, showing its metadata before the run |
| BigQuery.PassesKeys | everyday_scripts/bq_expire_table.py:78-90 | the loop keeps the set of tables |
| BigQuery.PassLines | everyday_scripts/bq_expire_partition.py:61-74 | one table prints a line exactly when it is eligible |
| BigQuery.PassCalls | everyday_scripts/bq_expire_partition.py:61-74 | one table is updated exactly when it is eligible and the run is not a dry run |
| BigQuery.Calls | everyday_scripts/bq_expire_table.py:78-90 | one update call per table, in order |
| BigQuery.Lines | everyday_scripts/bq_expire_table.py:78-90 | one printed line per table, in order |
| BqExpireTable.NewExpiry | everyday_scripts/bq_expire_table.py:41 | -1 removes the expiry; otherwise it lies exactly that many days after now |
| BqExpireTable.TableLineAfterUpdate | everyday_scripts/bq_expire_table.py:34-45 | as intended, the expiry set, read back at the same instant, prints as the new expiry did; the line as written is the intended one at a zero local offset, and prints the expiry set only there |
| BqExpireTable.PrintedExpiryDiffers | everyday_scripts/bq_expire_table.py:41-43 | as written, away from UTC the printed new expiry is not the expiry set |
| BqExpireTable.SetDatasetExpiration | everyday_scripts/bq_expire_table.py:28-53 | prints the line under the dataset's `dataset_id` (line 32); a real run stores the new default expiration, a dry run changes nothing |
| BqExpireTable.SetTableExpiration | everyday_scripts/bq_expire_table.py:33-56 | prints the table line with the new expiry as written, shifted by the local offset; a real run stores the new expiry, a dry run changes nothing; partitioning is untouched |
| BqExpireTable.HandleTable | everyday_scripts/bq_expire_table.py:79-90 | one listed table: it is printed, and in a real run updated, exactly when it is not skipped and matches the pattern, as one pass of the loop |
| BqExpireTable.HandleTables | everyday_scripts/bq_expire_table.py:59-90 | exactly the chosen listed tables get the new expiry (none in a dry run), with one as-written line each in listing order |
| BqExpireTable.ExpiryPassesSpec | everyday_scripts/bq_expire_table.py:78-90 | the passes change, call and print exactly for the chosen tables |
| BqExpireTable.ExpireCommand | everyday_scripts/bq_expire_table.py:113-130 | `--all-tables` with `--table` is a usage error (checked at 105-107); a missing dataset changes nothing; otherwise it sets the dataset's default expiration, printing its line under the dataset name and sending one update of `default_table_expiration_ms`, or sets the chosen tables and sends one `expires` update per chosen table; a dry run sends no update and changes nothing |
| BqExpirePartition.AsWrittenDropsColumn | everyday_scripts/bq_expire_partition.py:36-38 | as written, the new partitioning loses the partitioning column |
| BqExpirePartition.NewPartitioning | everyday_scripts/bq_expire_partition.py:36-38 | corrected, the partitioning stays by DAY on the same column, with the new expiration (none for -1) |
| BqExpirePartition.AsWrittenWithoutColumn | everyday_scripts/bq_expire_partition.py:36-38 | for a table partitioned on ingestion time (no column), the partitioning as written is the corrected one |
| BqExpirePartition.PartitionLineAfterUpdate | everyday_scripts/bq_expire_partition.py:27-38 | the partitioning the script sends is by DAY, and its expiration, read back, prints as the same days, or "None" for -1 and 0 |
| BqExpirePartition.SetPartitionExpiration | everyday_scripts/bq_expire_partition.py:16-39 | prints the partition line; a real run stores the partitioning as written (by DAY, no column, the new expiration), a dry run changes nothing; the expiry is untouched |
| BqExpirePartition.HandleTable | everyday_scripts/bq_expire_partition.py:62-74 | one listed table: it is printed, and in a real run updated, exactly when it is DAY-partitioned, not skipped and matches the pattern, as one pass of the loop |
| BqExpirePartition.HandleTables | everyday_scripts/bq_expire_partition.py:42-74 | exactly the chosen DAY-partitioned listed tables get the as-written partitioning (none in a dry run), with one line each in listing order |
| BqExpirePartition.PartitionPassesSpec | everyday_scripts/bq_expire_partition.py:61-74 | the passes change, call and print exactly for the chosen DAY-partitioned tables; each changed table ends DAY-partitioned without a column |
| BqExpirePartition.PartitionCommand | everyday_scripts/bq_expire_partition.py:90-107 | a missing dataset changes nothing; otherwise the chosen day-partitioned tables get the new partition expiration, one `time_partitioning` update is sent per chosen table and their lines are printed, and a dry run sends no update and changes nothing; datasets are never changed |
| GcpCustomMetrics.ShownSpec | everyday_scripts/manage_gcp_custom_metrics.py:38-50 | a shown descriptor is custom, and it matches a given pattern after the prefix; an empty pattern shows every custom one |
| GcpCustomMetrics.MetricLine | everyday_scripts/manage_gcp_custom_metrics.py:64-70 | the line is the name, a tab, then one coloured entry for every key but "name" |
| GcpCustomMetrics.DescEntries | everyday_scripts/manage_gcp_custom_metrics.py:52-59 | only the first key of `desc` is "name" |
| GcpCustomMetrics.DescriptorLineLayout | everyday_scripts/manage_gcp_custom_metrics.py:52-70 | the line holds the description, unit, labels, kind and type entries in that order |
| GcpCustomMetrics.MetricEntry | everyday_scripts/manage_gcp_custom_metrics.py:40-70 | a line is printed exactly for a shown descriptor |
| GcpCustomMetrics.ListMetrics | everyday_scripts/manage_gcp_custom_metrics.py:28-70 | one line per shown descriptor, in order |
| GcpCustomMetrics.MetricService.ListOfType | everyday_scripts/manage_gcp_custom_metrics.py:84-86 | exactly the descriptors of that type, in order |
| GcpCustomMetrics.MetricService.DeleteDescriptor | everyday_scripts/manage_gcp_custom_metrics.py:94 | exactly the descriptors of that name are removed |
| GcpCustomMetrics.Delete | everyday_scripts/manage_gcp_custom_metrics.py:76-95 | a missing metric is reported; otherwise the prompt is shown and the first match is deleted exactly when confirmed |
| GcpCustomMetrics.ListedIsFound | everyday_scripts/manage_gcp_custom_metrics.py:84-94 | a listed metric is found by `delete` under its short name; the descriptor `delete` removes has the listed metric's type, and afterwards exactly the descriptors of other resource names are left |
| Counter.MostCommonOfTally | everyday_scripts/analyze_emails.py:60-61 | `Counter(xs).most_common()` counts every element, holds each distinct element with its number of occurrences and comes by non-increasing count |
| Counter.MostCommonTies | everyday_scripts/analyze_emails.py:60-61 | elements with equal counts keep their insertion order |
| Counter.MostCommonTop | everyday_scripts/imap_tools.py:156 | `most_common(n)` is the first `n` of the full ranking, and empty for `n <= 0` |
| Counter.TallyGet | everyday_scripts/imap_tools.py:151 | the count of an element is its number of occurrences |
| Sorting.SortSorted | everyday_scripts/gh_list_changed.py:75 | `sorted` output is ordered |
| Sorting.SortStable | everyday_scripts/gh_list_changed.py:75 | `sorted` is stable: equal elements keep their order |
| Sorting.SortAgree | everyday_scripts/imap_tools.py:131 | two orders that agree on every pair of the input sort it alike |
| Strings.StripSpec | everyday_scripts/imap_tools.py:212 | `strip` removes exactly the leading and trailing whitespace |
| Strings.SplitLinesTerminated | everyday_scripts/imap_tools.py:212 | lines without breaks, each terminated, split back into those lines |

## Left out

- Network and service I/O: IMAP sessions, HTTP fetches, the BigQuery and
  Cloud Monitoring clients and the GitHub API. Their answers are
  parameters or the fields of a client class; retries, paging and
  authentication are not modelled.
- Regular expressions, `email.utils.parseaddr`, `email.header.decode_header`,
  `mimetypes.guess_type` and the YAML parser: these are parameters. Only
  `photo_label.py`'s `TITLE_RE` and JPEG pattern are modelled, and
  there `\d` means ASCII digits only and `\s` the ASCII whitespace
  `[ \t\n\r\f\v]`, as in Python 2 on the byte strings `os.listdir`
  returns. A character outside ASCII stands for its UTF-8 bytes, none of
  which is an ASCII space, a digit or a newline.
- Concurrency: `move_files` starts every file of a batch as a trio task in
  one nursery and waits for the batch (mmm.py:116-118); the model moves the
  files of each batch in order. Interleaving between the tasks of one batch
  is not modelled; the counters are assumed to update atomically. The
  thread pool of photo_label.py:100-105 (`multiprocessing.pool.ThreadPool`, imported at line 22) is not modelled either:
  the model computes the list of jobs the pool is given.
- The filesystem: `os.walk`, `os.listdir`, `os.path.isfile` and the
  resolution of symbolic links are inputs. Path names holding `/` inside a
  component are not modelled.
- Time: each `utcnow()` call reads one shared `now`. Time zones and
  `isoformat` are an `iso` parameter.
- Floating point: a number of days that is not whole prints through a
  `showFraction` parameter.
- Mmm: the mime.types search in `init_mimetypes`, the printing of
  `Metrics.stats`, the elapsed-time report, `msg_info`/`msg_error` colours
  and `sig_quit_clean` are not modelled.
- PhotoLabel: `image_width` and `label_jpeg` are not modelled, because
  they run ImageMagick in a subprocess.
- PhotoLabel.LabelFolder: the Python 2 reading is taken, where `filter`
  returns a list. Under Python 3 `filter` returns an iterator, so
  `len(file_list)` at photo_label.py:99 raises `TypeError` before any job is
  created; that failure is not modelled.
- Lower-casing covers ASCII only; there is no Unicode case folding.
- console: the colours `delete` puts on the sender, the subject and the
  totals (imap_tools.py:269-270 and :287-288) are not modelled; those texts
  are modelled uncoloured. Prompts and `KeyboardInterrupt` are not modelled
  either, and confirmation answers are parameters. The colours of the label
  pairs in `list` (manage_gcp_custom_metrics.py:69) are modelled, by
  GcpCustomMetrics.Style.
- argparse and click option parsing are not modelled beyond the values the
  commands receive.
- GhListChanged.ListChanged: the `PaginatedList` slice `[:max_prs]` at
  gh_list_changed.py:51 is modelled as a sequence slice. The two agree
  for `max_prs >= 0`. For a negative `max_prs`, PyGithub's slice yields
  no pull request, while the model's slice keeps all but the last
  `-max_prs` of them.
- GhListChanged.ListChanged: closing times are compared as naive dates. A
  PyGithub release that returns timezone-aware `closed_at` values makes the
  comparison at gh_list_changed.py:32 raise `TypeError`; that is not
  modelled.
- GcpCustomMetrics.MetricService.ListOfType: the quoting of the filter
  string built at manage_gcp_custom_metrics.py:84 is not modelled; the
  filter is taken as an exact match on the metric type.
- ImapTools.StatsSenders: a message without a From header makes
  `decode_header` raise (imap_tools.py:144). Every fetched message is
  given a From header here.
- ImapTools.ProcessMessages: the same holds for a missing From header at
  imap_tools.py:256.
- ImapTools.DeleteMatching: each number's fetch result is a fixed input,
  so the renumbering by EXPUNGE after each deletion is not reflected in
  what later numbers fetch. The renumbering itself is modelled on the
  inbox by ImapTools.ExpungeRenumbers (see "## Findings").
- AnalyzeEmails.DownloadEmails: `supportsSort` stands for
  `b"SORT" in server.capabilities` (analyze_emails.py:30). Under Python 3
  `imaplib` holds the capabilities as `str`, so that test is always false
  and only the SEARCH branch runs. Both branches are kept, as written.
  The SORT branch's `SORT (REVERSE DATE)` answer is modelled as the
  mailbox order reversed, that is, the mailbox is taken to be in date
  order; the server's date ordering itself is not modelled.
- BqExpireTable.NewExpiry: a number of days outside what `timedelta`
  accepts (beyond 999999999) raises `OverflowError` at
  bq_expire_table.py:41 and :55. So does an expiry past year 9999. Neither
  is modelled: integers are unbounded here.
- BqExpireTable.ExpireCommand: server errors other than `NotFound` for the
  dataset are not modelled; every update call succeeds.
- BqExpirePartition.SetPartitionExpiration: the model stores the
  partitioning the script sends. Whether the server accepts a partitioning
  that drops the table's partitioning column is not modelled (see
  "## Findings").
- SplitManifest.SplitManifest: writing a document whose file name is that
  of a subdirectory raises `IsADirectoryError`; the model writes the file
  anyway.
- SplitManifest.OutputDir.Clean: requires that the listing names exactly
  the directory's entries, each once, as `os.listdir` returns them.
  Permission errors are not modelled.
- BqExpireTable.HandleTables: requires that the listing names each table
  once and only tables the client knows, as a real listing does.
- BqExpirePartition.HandleTables: requires the same of the listing.
- BqExpirePartition.SetPartitionExpiration: requires a table that has a
  time partitioning, because its only caller checks that first.
- Files in the repository outside these scripts (`bcrypt_util.py`,
  `bind_mounts.py`, `bq_size.py`, `filename_time_parse.py`, `send_email.py`,
  `whatsapp_media_fix.py`, `resolve.go`) are not part of this model.

## Findings

| source | as written | input that shows it | evidently intended | confidence | as-written member | corrected member |
|---|---|---|---|---|---|---|
| everyday_scripts/imap_tools.py:131 | message numbers are sorted as strings, in reverse | numbers ["9", "10"] with one message kept: "9" is kept | the highest-numbered (latest) messages first | not executed | ImapTools.StatsSelectionAsWrittenExample | ImapTools.SelectionKeepsHighest |
| everyday_scripts/imap_tools.py:272-283 | every deletion is followed at once by EXPUNGE, which renumbers the later messages, while the loop goes on with the numbers the search returned | two unseen messages then a read one, all matching, with `allow_all`: the first unseen one and the read one are deleted, and the second unseen one is kept | delete the messages the search found: flag them all, then EXPUNGE once | not executed | ImapTools.ExpungeRenumbers | ImapTools.ExpungeAfterDeletesMatches |
| everyday_scripts/gh_list_changed.py:31 | the window ends at `start.replace(month=start.month % 12 + 1)`, in the same year | month "2023-12": the window runs from 1 Dec 2023 to 1 Jan 2023 and keeps nothing | the window ends on 1 January of the next year | not executed | GhListChanged.DecemberKeepsNothing | GhListChanged.FilterByMonthSpec |
| everyday_scripts/analyze_emails.py:32-37 | with SORT the ids come newest first, then `[-n:]` keeps the last `n`; the branch only runs where the capabilities hold bytes, since under Python 3 they hold `str` and the test at line 30 is always false | mailbox ["1", "2", "3"] with SORT and n = 1 downloads "1" | the `n` latest messages | not executed | AnalyzeEmails.SortListingTakesOldest | AnalyzeEmails.LatestIdsSpec |
| everyday_scripts/bq_expire_table.py:41-43 | the naive `utcnow()` expiry is printed through `astimezone`, as if it were local time | any new expiry on a machine whose local offset is not zero | print the expiry that was set | not executed | BqExpireTable.PrintedExpiryDiffers | BqExpireTable.TableLineAfterUpdate |
| everyday_scripts/bq_expire_partition.py:36-38 | the new `TimePartitioning` is built without the `field` of the old one | a table partitioned on a column (field "ts") | keep the partitioning column and change only the expiration | not executed | BqExpirePartition.AsWrittenDropsColumn | BqExpirePartition.NewPartitioning |
