# Synthetic ICS/OT prompt dataset generator — a Dafny model

The modelled program reads a seed file of industrial-control-system prompt
scenarios. The file holds one JSON object per non-blank line. For each seed,
the program asks a text-generation service for variations. Every returned
record gets a synthetic id `"{seed id}-S{counter:03d}"`. The counter is the
record's 1-based position in the whole output, and it never restarts at a new
seed. The records are then written, in order, to an output file.

This project models three parts of `tools/generate_synthetic_data.py`:

- the seed loader `load_seeds`: blank lines are skipped, the rest are decoded
  in file order, and a missing file gives no seeds (`loader.dfy`);
- the reply extraction of `generate_variations`: a failed call, or a reply
  without `new_entries`, gives the empty list (`generator.dfy`);
- the assembly loop and the early return of `main` (`assembler.dfy`,
  `pipeline.dfy`), with the `:03d` numeral (`decimal.dfy`) and the id format
  and its parser (`synthetic_id.dfy`).

A JSON value is the datatype `Json.Json`. A record, which is a Python dict, is
`map<string, Json>`. Several things are not modelled and are given as
parameters instead:

- the seed file, as its lines, or `None` when it does not exist;
- `json.loads` of a line, as `parse`, which answers `None` for malformed text;
- the outcome of the i-th generator call, as `answer(i)`: either `CallFailed`
  (any exception in the call or in decoding its content) or the decoded reply;
- Python's `str()` of a seed id that is not a string, as `show`.

The run ends in one of four ways:

- `NoSeeds`: the early return;
- `LoadFailed`: a malformed seed line;
- `Crashed`: an exception in the assembly loop, which is outside every `try`;
- `Written(dataset)`: the records handed to the writer.

Three points of the code's behaviour are worth stating plainly:

- The constant `NUM_VARIATIONS` (line 15, "How many new prompts to generate
  per seed") is only sent in the prompt, and line 98 announces
  `len(seeds) * NUM_VARIATIONS` new entries. The code enforces no bound: the
  service decides how many entries come back (`Pipeline.NoPerSeedBound`).
- `generate_variations` gives `[]` on a failed call, on a reply that is not
  an object, and on a reply without `new_entries` (lines 84-88). Any other
  `new_entries` value is returned unchanged. Main's loop (lines 107-109) then
  raises on it, outside any `try`, unless it is a list of dicts, `{}` or `""`
  (`Generator.Entries`).
- A seed that has entries but is not a dict, or has no `id`, also ends the run
  in main's loop, because `seed['id']` (line 109) raises. Such a seed is
  harmless when it has no entries (`Assembler.SeedBatch`,
  `Assembler.PendingCrashIff`).

## Model

| member | source | states |
|---|---|---|
| `Decimal.ToDecimal` | tools/generate_synthetic_data.py:109 | the decimal numeral of a counter is a non-empty string of digits with no leading zero (except for 0 itself) |
| `Decimal.ValueOfToDecimal` | tools/generate_synthetic_data.py:109 | the numeral denotes the number it was made from |
| `Decimal.ValueIgnoresLeadingZeros` | tools/generate_synthetic_data.py:109 | zero padding does not change the number a numeral denotes |
| `Decimal.DecimalWidth` | tools/generate_synthetic_data.py:109 | the natural numeral has three or more digits exactly from 100 upwards |
| `Decimal.LeftPad` | tools/generate_synthetic_data.py:109 | padding gives width max(width, length), ends with the original text and fills the front with the pad character |
| `Decimal.Format03dSpec` | tools/generate_synthetic_data.py:109 | `:03d` gives digits of width at least 3 denoting the counter; from 100 upwards exactly the natural numeral, below it zero-padded to exactly 3 |
| `Decimal.Format03dExamples` | tools/generate_synthetic_data.py:109 | 0, 1, 42, 999 and 1000 format as "000", "001", "042", "999" and "1000" |
| `SyntheticIds.TrailingDigits` | tools/generate_synthetic_data.py:109 | the digit suffix read back from an id is a suffix of it made of digits and preceded by a non-digit |
| `SyntheticIds.ParseSyntheticId` | tools/generate_synthetic_data.py:109 | the part after the final "-S" of an assigned id decodes to its counter, and the part before it is the seed id |
| `SyntheticIds.SyntheticIdInjective` | tools/generate_synthetic_data.py:109 | two ids are equal if and only if their seed ids and counters are equal |
| `SyntheticIds.SyntheticIdShape` | tools/generate_synthetic_data.py:109 | an id is the seed id, then "-S", then at least three digits denoting the counter, unpadded from 100 upwards |
| `SyntheticIds.SyntheticIdExamples` | tools/generate_synthetic_data.py:109 | ("S1", 1) gives "S1-S001", ("OT-7", 12) gives "OT-7-S012", ("S1", 1234) gives "S1-S1234" |
| `Loader.TrimStart` | tools/generate_synthetic_data.py:53 | only leading whitespace (Python's isspace set) is removed, and the result starts with a non-space |
| `Loader.TrimEnd` | tools/generate_synthetic_data.py:53 | only trailing whitespace is removed, and the result ends with a non-space |
| `Loader.StripEmptyIffBlank` | tools/generate_synthetic_data.py:53 | `line.strip()` is empty exactly when the line is all whitespace |
| `Loader.NonBlankSnoc` | tools/generate_synthetic_data.py:52-54 | one more line is kept at the end if and only if it is not blank |
| `Loader.NonBlankAppend` | tools/generate_synthetic_data.py:52-54 | the kept lines of a concatenation are the kept lines of each part, in order, so file order is preserved |
| `Loader.NonBlankMembers` | tools/generate_synthetic_data.py:52-54 | a line is kept if and only if it occurs in the file and is not blank |
| `Loader.ParseAllSpec` | tools/generate_synthetic_data.py:52-54 | decoding succeeds if and only if every kept line is valid JSON, and then gives one decoded value per line, in order |
| `Loader.LoadedSpec` | tools/generate_synthetic_data.py:44-55 | a missing file gives no seeds; otherwise one seed per non-blank line in file order, or failure if and only if some such line is malformed |
| `Loader.LoadSeeds` | tools/generate_synthetic_data.py:46-55 | the line-by-line loop returns exactly the result `LoadedSpec` describes |
| `Loader.ParseAllFailsFrom` | tools/generate_synthetic_data.py:54 | a malformed line fails the whole load, whatever follows it |
| `Generator.Objects` | tools/generate_synthetic_data.py:107-109 | a list yields records if and only if all its elements are objects, and then yields their fields one to one, in order |
| `Generator.Entries` | tools/generate_synthetic_data.py:107-109 | the entries value can be walked if and only if it is a list of objects, an empty dict or an empty string; a list gives its objects in order, the other two give nothing |
| `Generator.SilentReplyHasNoEntries` | tools/generate_synthetic_data.py:84-88 | a failed call, a non-object reply or a reply without "new_entries" gives no entries |
| `Generator.ListedEntries` | tools/generate_synthetic_data.py:84 | a reply whose "new_entries" is a list of objects gives exactly those objects, in order |
| `Assembler.Stamp` | tools/generate_synthetic_data.py:109 | the id is set to the synthetic id, added if missing and overwritten if present, and every other key and value is unchanged |
| `Assembler.Stamped` | tools/generate_synthetic_data.py:109-110 | the k-th record (0-based) is stamped with its seed's id and counter k + 1 |
| `Assembler.SeedBatchSize` | tools/generate_synthetic_data.py:107-110 | a seed contributes exactly as many records as its entries list holds |
| `Assembler.PendingCrashIff` | tools/generate_synthetic_data.py:103-110 | the loop raises if and only if processing some seed raises |
| `Assembler.PendingLength` | tools/generate_synthetic_data.py:103-110 | the output length is the sum of the per-seed list lengths |
| `Assembler.PendingAt` | tools/generate_synthetic_data.py:103-110 | the j-th entry of seed i sits at position (entries of seeds before i) + j, tagged with seed i's id: seed order first, then list order |
| `Assembler.Assemble` | tools/generate_synthetic_data.py:100-110 | the nested loop returns `None` (raises) exactly when `Pending` is `None`; otherwise it returns `Stamped(Pending(...))`, every record stamped with its 1-based position |
| `Assembler.StampedSnoc` | tools/generate_synthetic_data.py:109-110 | appending one record stamps it with counter (length so far) + 1 and leaves the earlier ones alone |
| `Assembler.CrashPersists` | tools/generate_synthetic_data.py:107-109 | a seed that raises ends the whole run, whatever comes after it |
| `Assembler.StampedIds` | tools/generate_synthetic_data.py:109 | every output record has an id that parses back to its seed id and its position; its other keys and values are the generated ones |
| `Assembler.StampedIdsDistinct` | tools/generate_synthetic_data.py:109 | no two output records share an id |
| `Assembler.OutputAt` | tools/generate_synthetic_data.py:103-110 | the j-th record of seed i gets counter (entries of seeds before i) + j + 1, so the counter is not reset between seeds |
| `Assembler.SilentSeedIrrelevant` | tools/generate_synthetic_data.py:103-110 | a seed whose call failed or that got no entries leaves the output exactly as if it were absent; later seeds are still processed |
| `Decimal.Format03d` | tools/generate_synthetic_data.py:109 | `f"{n:03d}"` for n >= 0; characterised by `Format03dSpec` and `Format03dExamples` |
| `SyntheticIds.SyntheticId` | tools/generate_synthetic_data.py:109 | `f"{seed['id']}-S{counter:03d}"`; characterised by `ParseSyntheticId`, `SyntheticIdInjective` and `SyntheticIdShape` |
| `Loader.Strip` | tools/generate_synthetic_data.py:53 | `line.strip()`; characterised by `TrimStart`, `TrimEnd` and `StripEmptyIffBlank` |
| `Loader.NonBlank` | tools/generate_synthetic_data.py:52-53 | the lines that survive `if line.strip()`; characterised by `NonBlankSnoc`, `NonBlankAppend` and `NonBlankMembers` |
| `Loader.Loaded` | tools/generate_synthetic_data.py:44-55 | the value or failure of `load_seeds`; characterised by `LoadedSpec`, and `LoadSeeds` is proved equal to it |
| `Generator.Variations` | tools/generate_synthetic_data.py:84-88 | `data.get("new_entries", [])` with the `except` returning `[]`; characterised by `SilentReplyHasNoEntries` and `ListedEntries` |
| `Assembler.SeedIdText` | tools/generate_synthetic_data.py:109 | the text `seed['id']` puts into the f-string, or `None` when the lookup raises; used by `SeedBatch`, and `PendingAt` shows each record carries it |
| `Assembler.SeedBatch` | tools/generate_synthetic_data.py:107-110 | one seed's records tagged with its id, or `None` when the inner loop raises; characterised by `SeedBatchSize`, `CrashPersists` and `SilentSeedIrrelevant` |
| `Assembler.Pending` | tools/generate_synthetic_data.py:103-110 | all seeds' records in seed order before numbering, or `None` on a crash; characterised by `PendingCrashIff`, `PendingLength`, `PendingAt` and `PendingOrigin` |
| `Assembler.PendingOrigin` | tools/generate_synthetic_data.py:103-110 | every output position k is entry j of some seed i, with k = (entries of seeds before i) + j |
| `Assembler.OutputOrigin` | tools/generate_synthetic_data.py:109 | every output id parses back to the id of some input seed and to the record's 1-based position |
| `Pipeline.Run` | tools/generate_synthetic_data.py:94-110 | a missing file or zero seeds returns early with nothing written; a malformed line fails the load; otherwise the i-th seed is paired with the i-th generator reply, in seed order, and the outcome is the loop's, its records stamped in order |
| `Pipeline.NoPerSeedBound` | tools/generate_synthetic_data.py:103-110 | one seed whose reply lists four entries yields four records, more than seeds × NUM_VARIATIONS |
| `Pipeline.SingleSeedExample` | tools/generate_synthetic_data.py:100-110 | seed S1 with one generated record yields that record with id "S1-S001" and its other fields unchanged |
| `Pipeline.FailedCallExample` | tools/generate_synthetic_data.py:86-88 | a failed first call does not stop the run: the second seed's record is produced and numbered 1 |

## Left out

- The call to the text-generation service is not modelled. This covers the client set-up, the model name, the temperature and the response format (lines 16, 19, 72-82). Each call's outcome is the input `answer(i)`.
- The prompt texts (lines 21-42, 60-69) are not modelled. They are string content with no effect on the logic being modelled.
- `json.loads` is the abstract parameter `parse`. `json.dumps` and the serialisation of the output (line 119) are not modelled.
- `Json.JString` holds Dafny characters, which are Unicode scalar values. A Python string decoded by `json.loads` can hold a lone surrogate (for example from `"\ud800"`), and the model cannot represent one, in a seed id or elsewhere.
- JSON numbers are kept as their source text. Nothing in the pipeline does arithmetic on them.
- Python's `str()` of a non-string seed id is the abstract parameter `show`.
- File I/O is not modelled: the existence check, opening and reading the seed file, and writing the output file (lines 47-51, 116-121). The seed file is given as its lines with their terminators. `Written` holds the records handed to the writer; a failing write is not modelled.
- `print`, `load_dotenv`, the `tqdm` progress bar and `time.sleep(0.5)` (lines 10, 48, 87, 91-98, 103, 113, 116, 121) have no effect on the data and are left out.
- Dict key order is not modelled, because records are unordered maps. In Python a fresh `id` key goes last and an existing one keeps its place. This shows in the written JSON text only.
- Updating `v['id']` in place is modelled as a map update. Each decoded dict is fresh and referenced only from the reply's list, so nothing else can observe the change.
- The number of service calls made is not tracked. The model consults `answer(i)` only for i below the number of seeds, which is one call per seed and none when there are no seeds.
- The kind of exception raised in the assembly loop (KeyError or TypeError) is not modelled. All of them are the single outcome `Crashed`.
