# Batch scan orchestrator: from a scanned line to scan jobs

The orchestrator drives a fleet of eight flatbed scanners. Each scanner sits behind its own
VM. Scanners 1..4 are Blue, Orange, Gray and Green (Batch 1). Scanners 5..8 are White, Black,
Yellow and Crimson (Batch 2). The operator scans one or more QR identifiers into a console.
The console parses the line, checks the identifiers and assigns each one a scanner slot. It
then starts the scans in rounds: `ssh` starts the capture on the VM, `scp` copies the TIFF
back, and the copied file's size is checked.

This project models that input-to-job pipeline in Dafny, as pure functions. It covers the
six console variants of the repository:

| console | input form | checks | bound | slots |
|---|---|---|---|---|
| `SAVE_parallelscan_BATCH1.py` | Batch 1 colour pairs, or the legacy `''` form | all errors collected | 4 | colour table (1..4), legacy form from 1 |
| `SAVE_parallelscan_BATCH2.py` | Batch 2 colour pairs only | all errors collected | 4 | colour table (5..8) |
| `parallelscan_BATCH2.py` | legacy form | all errors collected | 4 | from 5 |
| `colors_parallelscan.py` | any letter run as a colour | first error ends the run | 8 | colour → slot over the fleet, in chunks of four |
| `parallelscan.py` | legacy form | first error ends the run | 8 | first four from 1, the rest from 5 |
| `Legacy/fortesting/parallelscan.py` | legacy form | count only (1..8) | 8 | from 1, flat output folder |

The modules follow the program's structure:

- `Text` (`text.dfy`): the character classes of Python's `str.isspace`, `strip` and the
  ASCII part of `upper`.
- `QrFormat` (`qr_format.dfy`): `validate_qr_string`, the full match of `(\{[^{}]+\})+`, and
  a declarative definition of the same language (chunkings into `{…}` pieces).
- `Filenames` (`filenames.dfy`): `sanitize_filename`, `local_filename`, the remote path,
  and `pathlib` joins as component lists (a rooted right operand replaces the left one).
- `Registry` (`registry.dfy`): `VM_IPS`, `VM_Colors`, `COLOR_CANON`,
  `COLOR_TO_SCANNER_NUM` and the inverted `COLOR_TO_NUM`.
- `InputParser` (`input_parser.dfy`): `re.findall` of the colour patterns, as a
  left-to-right, non-overlapping scan over suffixes. Also the legacy `raw.split("''")` with
  its filter and quote strip, `parse_scanned_input` and `parse_color_qr_pairs`.
- `Validator` (`validator.dfy`): the duplicate and format loop, in its collecting form
  (every position visited) and its raising form (first error only). Also the colour → scanner
  job construction, which stops at the first bad colour.
- `Dispatch` (`dispatch.dfy`): positional slots, `chunk4`, the four-and-rest split, the
  size-sanity predicate, and one scan job as a sequence of remote steps.
- `Variants` (`variants.dfy`): each console as one pass from a raw line to a verdict. A
  verdict is either the errors it reports or the rounds of jobs it launches.

Remote calls are not executed. Each job receives the exit status of `ssh` and `scp`, and the
retrieved file size, as a parameter (`Dispatch.Remote`). The output root `DEST_DIR` is a
parameter as well.

## Model

| member | source | states |
|---|---|---|
| Text.UpperChar | colors_parallelscan.py:143 | Upper-casing leaves every non-letter alone, keeps letters letters, and never yields a lower-case letter. |
| Text.Strip | SAVE_parallelscan_BATCH1.py:77 | `strip` removes only end characters of the class: the result is empty iff every character is in the class, otherwise it starts and ends outside the class; a string with no such character is unchanged. |
| Text.StripPadded | SAVE_parallelscan_BATCH1.py:77 | Stripping a core surrounded by padding characters gives back exactly the core. |
| QrFormat.BraceFreeRunStops | SAVE_parallelscan_BATCH2.py:52-54 | The greedy `[^{}]+` run inside a chunk covers only non-brace characters and stops at the first brace. |
| QrFormat.FirstChunk | SAVE_parallelscan_BATCH2.py:52-54 | The recogniser's first step cuts off exactly one `{…}` chunk. |
| QrFormat.ChunksDecompose | SAVE_parallelscan_BATCH2.py:52-54 | The chunks the recogniser walks through are all `{`+non-empty brace-free text+`}` and concatenate back to the input. |
| QrFormat.ConcatIsChunkRun | SAVE_parallelscan_BATCH2.py:52-54 | Any concatenation of chunks is accepted by the recogniser. |
| QrFormat.ValidQrIffWellFormed | SAVE_parallelscan_BATCH2.py:52-54 | An identifier is accepted iff it is a concatenation of one or more chunks `{`+at least one non-brace character+`}`. |
| QrFormat.ValidQrBracketed | SAVE_parallelscan_BATCH2.py:52-54 | Every accepted identifier opens with `{` and closes with `}`. |
| QrFormat.ValidQrRejects | SAVE_parallelscan_BATCH2.py:52-54 | `""`, `"{}"`, `"{a"`, `"a{b}"` and `"{{a}}"` are rejected. |
| QrFormat.ValidQrAccepts | SAVE_parallelscan_BATCH2.py:52-54 | `"{a}{b c}"` is accepted. |
| Filenames.LocalFilename | SAVE_parallelscan_BATCH2.py:60-62 | The local name has the identifier's length, turns each space into `_`, keeps every other character (braces included) and contains no space. |
| Filenames.SanitizeIsPointwise | SAVE_parallelscan_BATCH2.py:56-58 | The three chained `replace` calls equal one character-by-character rewrite: `{`→`AAA`, `}`→`BBB`, space→`_`. |
| Filenames.SanitizeIsSafe | SAVE_parallelscan_BATCH2.py:56-58 | The remote-safe name contains no `{`, no `}` and no space. |
| Filenames.SanitizeIdempotent | SAVE_parallelscan_BATCH2.py:56-58 | Sanitising twice gives the same name as sanitising once. |
| Filenames.SanitizeLength | SAVE_parallelscan_BATCH2.py:56-58 | Each brace adds two characters to the remote-safe name; nothing else changes the length. |
| Filenames.SanitizeAfterLocal | SAVE_parallelscan_BATCH2.py:88-89 | Sanitising the local name gives the same remote-safe name as sanitising the identifier. |
| Filenames.SanitizeBracedChunk | SAVE_parallelscan_BATCH2.py:56-58 | A braced chunk keeps its sanitised content and trades its braces for `AAA` and `BBB`. |
| Filenames.SanitizeLosesBraces | SAVE_parallelscan_BATCH2.py:88-97 | `{x}` and `AAAxBBB` share a remote-safe name but have different local names, so the local name must come from the original identifier. |
| Filenames.SanitizeExample | SAVE_parallelscan_BATCH2.py:56-58 | `{AB CD}` is named `AAAAB_CDBBB` on the scanner VM. |
| Filenames.LocalExample | SAVE_parallelscan_BATCH2.py:60-62 | `{AB CD}` is named `{AB_CD}` locally. |
| Filenames.PathOf | SAVE_parallelscan_BATCH1.py:88 | A path is rooted iff its text starts with `/`; a single name without `/` is one component. |
| Filenames.RemotePath | SAVE_parallelscan_BATCH2.py:97 | The remote path starts with `/output/`, ends with `.tiff`, and contains no brace or space. |
| Filenames.NestedEqualsFolder | SAVE_parallelscan_BATCH1.py:88-91 | With a rooted destination, `DEST_DIR / scanner_folder / name` is the same path as `scanner_folder / name`. |
| Filenames.FolderLocalPathShape | SAVE_parallelscan_BATCH2.py:92-96 | For a colour and an identifier without `/`, the local file is `<dest>/<colour>/<local name>.tiff`. |
| Filenames.FlatLocalPathShape | Legacy/fortesting/parallelscan.py:37 | In the flat layout the local file is `<dest>/<local name>.tiff`, with no colour folder. |
| Registry.ToMap | colors_parallelscan.py:24-33 | The keys of a dict built from ordered items are exactly the items' keys. |
| Registry.InvertUpper | colors_parallelscan.py:36 | The keys of the inverted dict are exactly the upper-cased labels. |
| Registry.InvertUpperRoundTrip | colors_parallelscan.py:36 | With distinct slots and distinct upper-cased labels, the inverted dict sends each label back to its slot, and every key comes from some slot's label. |
| Registry.FleetEntriesDistinct | colors_parallelscan.py:24-33 | The fleet's eight slots are distinct and so are their upper-cased colour names. |
| Registry.FleetColorsKeys | colors_parallelscan.py:24-33 | `VM_Colors` of the eight-scanner variants names exactly the slots 1..8. |
| Registry.ColorToNumInvertsFleet | colors_parallelscan.py:24-36 | `COLOR_TO_NUM[VM_Colors[n].upper()] == n` for every slot, every key is some slot's colour upper-cased, and every value is in 1..8. |
| Registry.Batch1TablesAgree | SAVE_parallelscan_BATCH1.py:18-44 | The colour words are exactly `COLOR_CANON`'s keys; each maps to a scanner in 1..4 that has an address and that `VM_Colors` names with the same colour; different colours map to different scanners. |
| Registry.Batch2TablesAgree | SAVE_parallelscan_BATCH2.py:18-45 | The same agreement for Batch 2, with scanners 5..8. |
| Registry.SlotRanges | SAVE_parallelscan_BATCH1.py:18-30 | The Batch 1 tables name slots 1..4, the Batch 2 tables 5..8, and the fleet addresses 1..8. |
| InputParser.QuotedTail | SAVE_parallelscan_BATCH2.py:74 | A match of `\s*'([^']+)'` yields a non-empty identifier without `'` and a match length within the input. |
| InputParser.MatchKeywords | SAVE_parallelscan_BATCH2.py:74 | A match of the colour alternation has a tag that is one of the colour words up to ASCII case, and a non-empty identifier without `'`. |
| InputParser.MatchAt | colors_parallelscan.py:136 | A match at a position has positive length within the input, a tag of the right shape, and a non-empty identifier without `'`. |
| InputParser.FindAll | SAVE_parallelscan_BATCH2.py:74 | Every pair the scan returns has a tag of the right shape and a non-empty identifier without `'`. |
| InputParser.FindAllEmpty | colors_parallelscan.py:136-138 | The scan finds nothing iff the pattern matches at no position of the line. |
| InputParser.MatchKeywordsFinds | SAVE_parallelscan_BATCH2.py:74 | When the text is a tag whose upper-case form is a colour word, in any letter case as `re.IGNORECASE` allows, followed by text that starts with no letter and holds a quoted identifier, the alternation matches the tag as typed. No other colour word is a prefix of it, so the others fail. |
| InputParser.MatchLetterRunOn | colors_parallelscan.py:136 | When the text is a letter run followed by text that starts with no letter and holds a quoted identifier, the greedy letter class matches exactly that run. |
| InputParser.MatchAtRendered | colors_parallelscan.py:136 | A typed pair `TAG<whitespace>'<qr>'` matches as that very pair, for its whole length, whatever follows it. This holds for any run of whitespace, including none, and for a tag in any letter case under the colour-word rule. |
| InputParser.FindAllRenderPairs | SAVE_parallelscan_BATCH2.py:74 | Scanning a line of typed pairs gives back exactly those pairs, in order, with tags as typed. Each tag may be in any letter case and followed by any run of whitespace. |
| InputParser.SplitPairsOfQuotes | SAVE_parallelscan_BATCH1.py:77 | Splitting on `''` always yields at least one fragment. |
| InputParser.SplitJoinQuotes | SAVE_parallelscan_BATCH1.py:77 | Joining the fragments with `''` gives back the line: the split loses nothing. |
| InputParser.SplitAtDelimiter | SAVE_parallelscan_BATCH1.py:77 | A fragment with no `''` inside, followed by `''`, is cut off as one piece. |
| InputParser.SplitNoDelimiter | SAVE_parallelscan_BATCH1.py:77 | A line with no `''` is one fragment. |
| InputParser.QuoteOnlyFragment | SAVE_parallelscan_BATCH1.py:77 | A fragment of quotes only is not blank, so it survives the filter as the empty identifier. |
| InputParser.KeepFragments | SAVE_parallelscan_BATCH1.py:77 | The filter never yields more identifiers than fragments. |
| InputParser.KeepFragmentsAppend | SAVE_parallelscan_BATCH1.py:77 | Filtering and stripping works fragment by fragment, so order is preserved. |
| InputParser.StripLegacy | SAVE_parallelscan_BATCH1.py:77 | An identifier with quotes around it is not blank and strips back to the identifier. |
| InputParser.LegacyRoundTrip | parallelscan.py:129 | The legacy parse of `'q1''q2''…''qn'` gives back `q1, …, qn`, for non-empty identifiers without `'` that neither start with whitespace nor start or end with `"`. |
| InputParser.ParseScannedInput | SAVE_parallelscan_BATCH2.py:64-81 | The parse fails iff the legacy form is off and no colour pair matches. A successful parse has colours iff the scan matched anything, so a line with any colour pair is read in the tagged form even when the legacy form is on. A tagged parse gives the identifiers of the scan's matches, in order. Colour `i` is `COLOR_CANON` of match `i`'s tag upper-cased. An untagged parse is the legacy parse of the line. |
| InputParser.ParseScannedInputRoundTrip | SAVE_parallelscan_BATCH1.py:70-74 | A line typed as colour pairs parses to its identifiers in order, whether the legacy form is on or off. Colour `i` is the canonical label of tag `i` upper-cased. Tags may be in any letter case and followed by any run of whitespace. |
| InputParser.NumberPairs | colors_parallelscan.py:140-149 | Numbering gives one scanner and one identifier per pair, or an unknown-colour error. |
| InputParser.NumberPairsMeaning | colors_parallelscan.py:140-149 | Numbering succeeds iff every tag, upper-cased, is a colour; then each pair gets its colour's scanner and its whitespace-stripped identifier, in order. Otherwise the error names the first tag that is not a colour. |
| InputParser.NumberedCons | colors_parallelscan.py:142-148 | Numbering one more pair in front extends the numbering of the rest. |
| InputParser.ParseColorQrPairs | colors_parallelscan.py:128-149 | The result is `([], [])` iff no pair matches. It is an error iff some tag is not a colour, and the error names the first such tag. Otherwise the lists have equal length and every number is a scanner of the table. |
| InputParser.ParseColorQrPairsRoundTrip | colors_parallelscan.py:128-149 | A line of typed pairs whose tags are colours parses to their scanners and their stripped identifiers, in order. Any run of whitespace may follow each tag. |
| Validator.QrChecksFrom | SAVE_parallelscan_BATCH1.py:222-234 | The collecting loop reports at most one error per remaining position. |
| Validator.ValidBeforeStep | SAVE_parallelscan_BATCH2.py:234-244 | At position `i`, the duplicate set holds the identifier iff it is well-formed and occurs earlier. |
| Validator.QrChecksFromIsReference | SAVE_parallelscan_BATCH2.py:234-244 | The loop with its mutable duplicate set reports exactly the position-by-position errors, because a malformed identifier is never added. |
| Validator.QrChecksIsReference | SAVE_parallelscan_BATCH1.py:222-234 | The errors of the whole loop are the position-by-position errors. |
| Validator.PositionErrorsMembers | SAVE_parallelscan_BATCH1.py:224-232 | An error is reported from position `i` on iff some position there has it. |
| Validator.PositionErrorAt | SAVE_parallelscan_BATCH2.py:235-243 | Only position `k` (1-based) can carry an error numbered `k`, and which error it carries. |
| Validator.QrChecksReportsEveryPosition | SAVE_parallelscan_BATCH2.py:234-244 | `MalformedQr(k)` is reported iff identifier `k` is ill-formed. `DuplicateQr(k)` is reported iff identifier `k` is well-formed and occurs earlier. |
| Validator.PositionErrorsEmpty | SAVE_parallelscan_BATCH1.py:222-236 | No error from position `i` on iff no position there has one. |
| Validator.NoEarlierCopyIsDistinct | SAVE_parallelscan_BATCH1.py:222-234 | No identifier equal to an earlier one is the same as all identifiers distinct. |
| Validator.QrChecksEmpty | SAVE_parallelscan_BATCH1.py:222-236 | The loop reports nothing iff every identifier is well-formed and none repeats. |
| Validator.FirstQrErrorFrom | parallelscan.py:141-149 | The raising loop's error is a duplicate or a malformed identifier. |
| Validator.FirstQrErrorFromIsHead | parallelscan.py:141-149 | The raising loop raises exactly the first error the collecting loop would print. |
| Validator.FirstQrErrorNone | colors_parallelscan.py:176-182 | The raising loop passes iff every identifier is well-formed and none repeats; otherwise it raises the first collected error. |
| Validator.BuildFrom | SAVE_parallelscan_BATCH2.py:195-210 | Each job built pairs the colour's table scanner with the identifier at the same position. Without error, every colour got a job. An error is an unknown colour or a reused scanner. |
| Validator.BuildFromScanners | SAVE_parallelscan_BATCH2.py:196-210 | The loop never hands out a scanner already in use, nor one twice. |
| Validator.BuildFromFresh | SAVE_parallelscan_BATCH2.py:196-210 | The built jobs' scanners are distinct and none was in use before. |
| Validator.BuildFromSucceeds | SAVE_parallelscan_BATCH1.py:191-203 | The loop ends without error iff every colour is in the table and its scanner is neither in use nor taken by an earlier colour. |
| Validator.BuildColorJobsSucceeds | SAVE_parallelscan_BATCH1.py:189-203 | Job construction succeeds iff every colour is known and no two colours share a scanner; it then keeps every identifier, in order. |
| Dispatch.Positional | parallelscan_BATCH2.py:115-120 | `run_batch(start, qrs)` keeps the identifiers in order, puts position `i` on scanner `start + i`, and never repeats a scanner. |
| Dispatch.ZipJobs | colors_parallelscan.py:107-111 | `run_batch(scanner_nums, qr_batch)` keeps the identifiers in order and pairs position `i` with `scanner_nums[i]`. |
| Dispatch.ZipUnzip | colors_parallelscan.py:188-195 | Splitting jobs into scanners and identifiers and zipping them again restores the jobs. |
| Dispatch.PositionalInSlots | parallelscan_BATCH2.py:115-120 | At most four identifiers from `start` stay within the four slots from `start`. |
| Dispatch.Chunk4 | colors_parallelscan.py:123-126 | `chunk4` yields nothing for empty input, and slices of one to four items, all but the last of four, that concatenate back to the input. |
| Dispatch.Chunk4Slices | colors_parallelscan.py:123-126 | Chunk `k` is the slice `s[4k : 4k + 4]`. |
| Dispatch.Chunk4Count | colors_parallelscan.py:123-126 | There is one chunk per started group of four. |
| Dispatch.LockstepChunks | colors_parallelscan.py:186-199 | Chunking the (scanner, identifier) pairs and zipping each chunk again launches exactly the pairs, in order, with scanner and identifier aligned. |
| Dispatch.SplitRounds | parallelscan.py:154-164 | There is a second round only past four identifiers, and the first round carries the first four. |
| Dispatch.PositionalAppend | parallelscan.py:101-106 | Positional numbering continues across a concatenation. |
| Dispatch.SplitRoundsArePositional | parallelscan.py:154-164 | Across both rounds, overall position `i` is on scanner `i + 1`: the second round's start of 5 continues where the first ends. |
| Dispatch.SizeWarningBand | SAVE_parallelscan_BATCH1.py:123-126 | The size warning fires iff the size is outside 424,600,000 ..= 434,600,000; both bounds pass. |
| Dispatch.RunScan | SAVE_parallelscan_BATCH1.py:81-131 | A slot without an address (or, outside the flat layout, without a colour) runs nothing. Otherwise `ssh` runs first with the remote path in its command, and `scp` runs iff `ssh` succeeded. The job fails at the scan iff `ssh` failed, and completes iff both succeed. `scp` copies to the layout's local path. A failed scan leaves one step and a failed copy two. Outside the flat layout a completed run has a third step, the size probe of the copied file, and the warning is the size predicate. The flat layout stops after the copy and never warns. |
| Dispatch.RunScanTarget | SAVE_parallelscan_BATCH2.py:91-97 | In both colour layouts the copy lands at `<dest>/<colour>/<local name>.tiff`, built from the original identifier. |
| Dispatch.RunBatch | SAVE_parallelscan_BATCH2.py:154-170 | Job `i`'s outcome is decided by its own slot and its own remote answers alone. It is an unknown slot iff the slot is not known, a failed scan iff known and `ssh` failed, and complete iff known and both calls succeeded. A known job's first step is `ssh` to its own scanner. |
| Dispatch.RunBatchIsolatesFailure | SAVE_parallelscan_BATCH2.py:154-170 | With every slot known and only job `k`'s `ssh` failing, job `k` fails without any copy and every other job completes. |
| Variants.BatchConsoleRun | SAVE_parallelscan_BATCH1.py:182-236 | A refused pass reports at least one error. Once the pass reaches the identifier loop, `MalformedQr(k)` is reported iff identifier `k` is ill-formed, and `DuplicateQr(k)` iff it is well-formed and repeats an earlier one. |
| Variants.CheckBatch | SAVE_parallelscan_BATCH2.py:190-247 | A batch that fails the pairing, emptiness or size checks is refused, and its last error is the one that ended the pass. A colour count unequal to the identifier count is refused with `ColorCountMismatch` alone; no colours where the legacy form is off, with `NoColorEntries` alone. Once paired, an empty batch ends with `NoQrCodes` and one past four with `TooMany(4)`, after at most one job-building error. A batch that passes these checks and is refused reports at most one job-building error, then exactly the identifier loop's errors. So every bad position is named: `MalformedQr(k)` iff identifier `k` is ill-formed, `DuplicateQr(k)` iff it is well-formed and repeats an earlier one. |
| Variants.DistinctScanners | SAVE_parallelscan_BATCH1.py:191-203 | Under consistent tables, two canonical colours share a scanner iff they are the same colour. |
| Variants.CheckColorBatch | SAVE_parallelscan_BATCH2.py:190-247 | Tagged form: the batch runs iff it has at most four pairs, all identifiers well-formed and distinct, and no colour repeated. The one round keeps the identifiers in order, each on its colour's scanner. |
| Variants.CheckLegacyBatch | SAVE_parallelscan_BATCH1.py:204-236 | Legacy form: the batch runs iff it has one to four well-formed, distinct identifiers; position `i` goes to scanner `i + 1`. |
| Variants.BatchConsoleVerdict | SAVE_parallelscan_BATCH1.py:182-243 | A locking console launches iff the line parses to one to four well-formed, distinct identifiers with no repeated colour. The one round keeps input order, on the colour's scanner or, in the legacy form, on scanner `i + 1`. |
| Variants.Save1Consistent | SAVE_parallelscan_BATCH1.py:32-44 | Every Batch 1 colour word canonicalises, and each label has its own scanner. |
| Variants.Save2Consistent | SAVE_parallelscan_BATCH2.py:33-45 | The same for Batch 2. |
| Variants.Batch1KeywordsGood | SAVE_parallelscan_BATCH1.py:70 | The Batch 1 colour words are upper-case letter words, none a prefix of another. |
| Variants.Batch2KeywordsGood | SAVE_parallelscan_BATCH2.py:74 | The same for the Batch 2 colour words. |
| Variants.DifferAt | SAVE_parallelscan_BATCH2.py:74 | Two words that differ at a shared position are not prefixes of each other. |
| Variants.Save1ReadsTaggedLine | SAVE_parallelscan_BATCH1.py:70-74 | A line typed as Batch 1 pairs reaches the checks as its identifiers in order. Each colour is the canonical label of the tag upper-cased. Tags may be in any letter case and followed by any run of whitespace. |
| Variants.Save1ReadsLowerCase | SAVE_parallelscan_BATCH1.py:70-74 | `blue'{a}'`, lower case and with no space, parses to the identifier `{a}` with colour `Blue`. |
| Variants.Save2ReadsTaggedLine | SAVE_parallelscan_BATCH2.py:74-78 | The same for Batch 2 pairs, tags in any letter case and followed by any run of whitespace. |
| Variants.Save2NeedsColors | SAVE_parallelscan_BATCH2.py:80-81 | The Batch 2 console dispatches only lines with a colour pair; a line without one is refused as legacy input. |
| Variants.ColorsInSlots | SAVE_parallelscan_BATCH1.py:191-203 | Canonical colours of a console whose colours map into `base..base + 3` get scanners there. |
| Variants.BatchSlots | SAVE_parallelscan_BATCH1.py:189-206 | Such a console, numbering its legacy form from 1, launches jobs only on `base..base + 3`. |
| Variants.Save1Slots | SAVE_parallelscan_BATCH1.py:189-206 | Every job of the Batch 1 console goes to a scanner in 1..4. |
| Variants.Save2Slots | SAVE_parallelscan_BATCH2.py:195-216 | Every job of the Batch 2 console goes to a scanner in 5..8. |
| Variants.Batch2LegacyRun | parallelscan_BATCH2.py:147-173 | A refused pass always reports at least one error. A line with no identifiers is refused with `NoQrCodes` alone, and one with more than four with `TooMany(4)` alone. |
| Variants.Batch2LegacyVerdict | parallelscan_BATCH2.py:147-182 | The legacy Batch 2 console launches iff one to four well-formed, distinct identifiers, position `i` on scanner `5 + i` (always in 5..8). Otherwise, for one to four identifiers, it reports every bad position; an empty line reports `NoQrCodes` and a longer one `TooMany(4)`. |
| Variants.HasRepeat | colors_parallelscan.py:172 | `len(set(nums)) != len(nums)` holds iff some number occurs twice. |
| Variants.ChunkRounds | colors_parallelscan.py:191-199 | One round per chunk. |
| Variants.ColorsConsoleRun | colors_parallelscan.py:163-182 | A refused run reports exactly one error: the parser's unknown colour if it raised. Otherwise, in order: `NoQrCodes` for no pairs, `TooMany(8)` past eight, `ScannersNotDistinct` for a repeated scanner, and then the identifier loop's first error. |
| Variants.CheckPairs | colors_parallelscan.py:165-182 | A refused batch reports exactly one error, chosen in the order of the checks: `NoQrCodes` for no pairs, `TooMany(8)` past eight, `ScannersNotDistinct` for a repeated scanner, and otherwise the first error the identifier loop reports. |
| Variants.CheckPairsVerdict | colors_parallelscan.py:165-199 | The colour console's checks pass iff one to eight pairs, no repeated scanner, and well-formed, distinct identifiers. The rounds are groups of one to four that together launch every pair in order. |
| Variants.ColorsConsoleVerdict | colors_parallelscan.py:163-199 | The colour console launches iff every tag is a colour, with one to eight pairs, no repeated scanner, and well-formed distinct identifiers. The rounds launch every (scanner, identifier) pair in order, groups of at most four, on scanners 1..8. |
| Variants.UnifiedConsoleRun | parallelscan.py:129-149 | A refused run reports exactly one error: `NoQrCodes` for a line with no identifiers, `TooMany(8)` past eight, and otherwise the identifier loop's first error. |
| Variants.CheckUnified | parallelscan.py:131-149 | A refused batch reports exactly one error: `NoQrCodes` when empty, `TooMany(8)` past eight, and otherwise the first error the identifier loop reports. |
| Variants.CheckUnifiedVerdict | parallelscan.py:131-164 | The batch runs iff one to eight well-formed, distinct identifiers. A second round exists only past four, and overall position `i` is on scanner `i + 1`, within 1..8. |
| Variants.UnifiedConsoleVerdict | parallelscan.py:129-164 | The same, for the legacy parse of the line. |
| Variants.TestConsoleRun | Legacy/fortesting/parallelscan.py:80-88 | A refused run reports exactly one error: `NoQrCodes` for a line with no identifiers and `TooMany(8)` for one with more than eight. |
| Variants.TestConsoleVerdict | Legacy/fortesting/parallelscan.py:80-94 | The test console launches any line with one to eight identifiers, well-formed or not, position `i` on scanner `i + 1` within 1..8. |
| Variants.ReportNamesEveryPosition | SAVE_parallelscan_BATCH1.py:222-234 | A report of at most one job-building error followed by the identifier loop's errors names `MalformedQr(k)` iff identifier `k` is ill-formed, and `DuplicateQr(k)` iff it is well-formed and repeats an earlier one. |
| Variants.RoundReachesScanners | SAVE_parallelscan_BATCH1.py:81-89 | A round whose scanners all lie in slots with an address (and a colour, outside the flat layout) never fails for an unknown slot. |
| Variants.DeploymentsKnowTheirSlots | SAVE_parallelscan_BATCH1.py:18-30 | Batch 1 knows slots 1..4, Batch 2 knows 5..8, and the fleet knows 1..8. The early test variant has addresses for 1..8 and needs no colour. |
| Variants.Save1ReachesScanners | SAVE_parallelscan_BATCH1.py:81-91 | No job the Batch 1 console launches fails for an unknown slot under its tables and nested output layout. |
| Variants.Save2ReachesScanners | SAVE_parallelscan_BATCH2.py:85-96 | No job the Batch 2 console launches fails for an unknown slot under its tables and colour-folder layout. |
| Variants.Batch2LegacyReachesScanners | parallelscan_BATCH2.py:47-57 | No job the legacy Batch 2 console launches fails for an unknown slot under the Batch 2 tables. |
| Variants.ColorsReachesScanners | colors_parallelscan.py:52-62 | No job in any round of the colour console fails for an unknown slot under the fleet tables. |
| Variants.UnifiedReachesScanners | parallelscan.py:49-59 | No job in either round of the eight-scanner console fails for an unknown slot under the fleet tables. |
| Variants.TestReachesScanners | Legacy/fortesting/parallelscan.py:31-37 | No job of the test console fails for an unknown slot: it needs only an address, and 1..8 all have one. |

## Left out

- Remote execution: `ssh`, `scp`, `cleaner.sh`, `os.path.getsize` and `mkdir` are not run. Their exit status and the file size are inputs of `Dispatch.RunScan`. A `getsize` that raises is not modelled.
- Concurrency and timing: the thread pool, `as_completed` and the `time.sleep` staggering. A round is its jobs in launch order. `Dispatch.RunBatch` states that each job's outcome depends on its own slot and remote answers only, which is what catching each worker's exception gives.
- The `fcntl` batch lock (`acquire_batch_lock`/`release_batch_lock`): an operating-system primitive.
- Console plumbing: `input()` with its `strip()`, `sys.argv` selection, the usage error, `os.system('clear')`, printed texts, and EOF/interrupt handling. Each console is modelled as one pass over one raw line.
- The outer `while True` loop of the locking consoles is not modelled, so the model does not show that a pass given through `sys.argv` re-reads the same argument on every iteration.
- Variants.BatchConsoleRun: a parse error of the Batch 2 console is a `ValueError` the loop does not catch, so the console process ends. The model records the pass as refused with `LegacyModeDisabled`, and does not distinguish ending the process from prompting again.
- Raising versus exiting: the raising consoles (`ValueError`) and the test console (`sys.exit(1)`) both end the run. Both are modelled as a refusal with the one error.
- `DEST_DIR`: it depends on the home directory and today's date, so it is a parameter (`dest`). The file-system root is a rooted path with the given components.
- Message texts and the exact exception types are not modelled; errors are the `Jobs.BatchError` constructors.
- Unicode case folding: `re.IGNORECASE` and `str.upper` are modelled for ASCII letters only. A non-ASCII letter that upper-cases to an ASCII one (for example the dotless `ı`) is not handled as Python would handle it.
- Python's `\s` in `str` patterns and `str.strip()` are modelled by the fixed `str.isspace` code-point list in `Text.IsSpace`.
- InputParser.LegacyRoundTrip: it covers only non-empty identifiers without `'` that neither start with whitespace nor start or end with `"`. An identifier with `'` cannot be written unambiguously in the legacy form, and the other exclusions keep the proof short.
- `Dispatch.RunScan` models the target path and command strings but not shell quoting. An identifier containing `'` would break the quoted `OUTPUT_FILE='…'` on the VM; that shell behaviour is not modelled.
- `scp -q`, the discarding of `ssh` output, and the differing log lines of the variants: output only.
- The size warning is only printed; the job still completes. `Dispatch.RunScan` records the warning and nothing else depends on it.
- `Filenames.PathOf` models POSIX `pathlib` normalisation (empty and `.` components dropped), not `..` resolution, which `pathlib` does not do either. It also does not keep a leading `//` as a distinct root, which `PurePosixPath` does (`//x.tiff` stays `//x.tiff`); the model reads it as `/x.tiff`. Only the test console, which does not validate identifiers, can produce such a name.
