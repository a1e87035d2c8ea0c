# Contract-extraction core, modelled in Dafny

This project models the deterministic core of a contract-extraction pipeline, and proves properties of that model. The pipeline reads scanned contracts: a master agreement (CG, "conditions générales" / "cadre"), subscriptions (CP, "conditions particulières" / "souscription") and amendments (AV, "avenants"). It asks a language model to extract priced products from them, and assembles one product table per affair.

The language model, the document store and the blob store are outside this model. What it covers is the code around them:

- **Document selection and bucketing** (`gpt_module.py`):
  - the id-exclusion filter of `get_docs`;
  - `get_cpcgav`, which sorts documents into CG, CP and AV buckets by case-insensitive id markers;
  - `verify_cpcgav_separation`, the count check on those buckets;
  - `process_cgcp`;
  - the two prompt builders, `build_message_cgcp` and `build_message_avenant`.
- **Table post-processing** (`gpt_module.py`):
  - `concat_avenant_df`;
  - `get_df_cpcgav_all`, the merge of the CG/CP table with the amendment table, sorted by signature date;
  - `loyer2null`, the clean-up of rents on one-shot products;
  - the schema gate `validate_columns` / `rectify_df`, with the 62-column `col_order` of `gpt_module_financial_agent.py:290-353`.
- **Blob-path helpers** (`di_module.py`, and the copy in `DI_script.py`): `parse_blob_path`, `slugify_path`, the `.pdf` name filter of `read_pdfs` (also used at `DI_script.py:24`), and `select_affair`.

Files:

| file | module | contents |
|---|---|---|
| `Wrappers.dfy` | `Wrappers` | `Option`, `Result`, and the Python exceptions raised (`ValueError`, `KeyError`, `TypeError`) |
| `Seqs.dfy` | `Seqs` | list comprehensions (`Filter`, `Map`), counting, subsequences, permutations |
| `Text.dfy` | `Text` | `str.strip` (the full `isspace` set), ASCII `lower`/`casefold`, substring `in`, `str.join`, `str.replace`, `re.sub` of a negated character class, slicing `[:n]` with Python's negative-bound semantics |
| `Frames.dfy` | `Frames` | a pandas model: cells, rows, tables, `concat`, `sort_values` order, `fillna`, column selection; the class `DataFrame`, whose methods update its columns and rows in place |
| `GptModule.dfy` | `GptModule` | exclusion, bucketing, the separation check, the prompt builders |
| `GptSchema.dfy` | `GptSchema` | `validate_columns`, `rectify_df` |
| `GptTables.dfy` | `GptTables` | `concat_avenant_df`, `get_df_cpcgav_all` |
| `GptLoyer.dfy` | `GptLoyer` | `loyer2null` |
| `DiModule.dfy` | `DiModule` | `parse_blob_path`, `slugify_path`, the pdf filter, `select_affair` |
| `DiScript.dfy` | `DiScript` | the script's own `slugify_path`, proved equal to the module's |

The table operations follow one pattern:

- They are specified as functions on table values (`RectifyTable`, `CpCgAvAllTable`, `Loyer2NullTable`, ...).
- They are implemented as methods over `Frames.DataFrame` that copy their input and change the copy in place, as the Python does. Each method's postcondition ties its result to the specifying function.
- Lemmas prove what the functions promise: error conditions, row preservation, ordering, the per-row effect, idempotence.

A table is `WellFormed` when every row has exactly the table's columns. This is the invariant pandas keeps. The lemmas show that every table operation returns a well-formed table from a well-formed input:
- `ConcatAvenantDfCorrect`;
- `CpCgAvAllColumns`;
- `Loyer2NullWellFormed`;
- `RectifyTableCorrect`.

### Behaviours of the code worth knowing

- **Bucketing.** A document goes into every bucket whose marker its id carries, so one document can be both a CP and an amendment (`DoubleClassified`). A document that matches no marker is dropped silently (`Unclassified`). `verify_cpcgav_separation` compares counts only: one document counted twice and one counted never pass together (`SeparationCountsOnly`).
- **Amendment order.** `concat_avenant_df` sorts by the extracted `avenant_number`, not by any date.
- **Merge order.** `get_df_cpcgav_all` sorts the merged table by signature date: the amendment date, else the CP date, with missing dates last. pandas' default sort is not stable, so rows with equal dates come out in no promised order.

`loyer2null` casts its flags with `astype(bool)`, under which any non-empty string is true. A table that went through `rectify_df` has the string "null" in a missing flag, and the CG/CP table that reaches `loyer2null` has been rectified. So a row whose one-shot flag was missing is cleaned as a one-shot row (`NullTextCountsAsOneShot`). This is what the code does, and the model keeps it.

## Model

| member | source | states |
|---|---|---|
| GptModule.ExcludeIds | gpt_module.py:105-106 | an id is kept iff it is one of the ids and contains none of the three exclusion flags, both sides lower-cased |
| GptModule.ExcludeIdsOrder | gpt_module.py:106 | the kept ids are a subsequence of the ids (order kept), and there are as many as ids satisfying the keep predicate |
| GptModule.ExcludeIdsIgnoresCase | gpt_module.py:90-106 | an id carrying "-asp-" in lower case is excluded by the upper-case flag "-ASP-" |
| GptModule.GetCpCgAv | gpt_module.py:114-148 | no bucket is longer than the document list, and the text of every document with a bucket's marker is in that bucket (an amendment behind its header); which documents fill each bucket, in order, is stated by `GetCpCgAvOne` and `GetCpCgAvAppend` |
| GptModule.GetCpCgAvOne | gpt_module.py:114-141 | one document goes to CG iff it has a CG marker and no "-avenant-", to CP iff it has a CP marker, and to AV (behind the amendment header) iff it has an AV marker; its content defaults to "" |
| GptModule.GetCpCgAvAppend | gpt_module.py:126-141 | the buckets of a concatenation of document lists are the per-part buckets concatenated, so each bucket keeps the documents' order |
| GptModule.BucketSizesArePlacements | gpt_module.py:126-141 | the three bucket sizes add up to the number of (document, bucket) placements |
| GptModule.VerifySeparation | gpt_module.py:462-468 | the check passes iff the bucket sizes add up to the number of documents and the CP bucket is not empty; a size mismatch is reported before a missing CP |
| GptModule.SeparationOfDisjointBuckets | gpt_module.py:462-468 | for documents that never land in two buckets, the separation check passes iff every document is classified and at least one is a CP |
| GptModule.NoMarkerWithout | gpt_module.py:72-81 | every configured marker holds a 'c' or an 'a', so an id with neither letter matches no marker |
| GptModule.DoubleClassified | gpt_module.py:72-81 | "x-cp-avenant-1.pdf" is placed twice: it is a CP and an amendment, and it is not a CG |
| GptModule.Unclassified | gpt_module.py:126-141 | "notes.txt" lands in no bucket |
| GptModule.SeparationCountsOnly | gpt_module.py:462-468 | a document placed twice and a document placed never pass the check together |
| GptModule.ProcessCgCp | gpt_module.py:151-161 | every CG and every CP text occurs in its newline-joined string, whose length is the parts' total plus the separators; no texts give "" and one text is its own string |
| GptModule.ProcessCgCpAppend | gpt_module.py:151-161 | the texts keep their order: the string of two non-empty lists of texts is the first list's string, one "\n", then the second list's string |
| GptModule.BuildMessageCgCp | gpt_module.py:164-185 | the system prompt comes first; the one user message carries the stripped CG text behind its header and the stripped CP text behind its header, and ends with the question; `CgCpIsAvenantOfBlock` places CG before CP |
| GptModule.BuildMessageAvenant | gpt_module.py:187-198 | the system prompt comes first; in the one user message the amendment text, unstripped, and the question sit at fixed places behind their leads, so both can be read back |
| GptModule.CgCpIsAvenantOfBlock | gpt_module.py:164-198 | the CG+CP messages are the amendment messages built on the block made of the CG section followed by the CP section, with the same system prompt first |
| GptModule.BuildMessageCgCpIgnoresEdgeSpace | gpt_module.py:171-177 | whitespace around the CG or CP string does not change the messages |
| GptModule.AvenantMessageCarriesDocument | gpt_module.py:187-198 | each amendment's user message contains the amendment header followed by the document's text |
| GptSchema.ValidateColumns | gpt_module.py:315-323 | when it passes, every column is expected and every expected column is present; its only error is the "Column mismatch" ValueError |
| GptSchema.ValidateColumnsIff | gpt_module.py:315-323 | validation passes iff the table's column set equals the expected set; otherwise it raises the one "Column mismatch" ValueError |
| GptSchema.ValidateColumnsIgnoresOrder | gpt_module.py:317-318 | the same columns in another order pass |
| GptSchema.ValidateColumnsIgnoresRepeats | gpt_module.py:317-318 | a repeated column passes |
| GptSchema.RectifyTable | gpt_module.py:325-331 | on success the columns are exactly `col_order` and there are as many rows as in the input; its only error is the one `validate_columns` raises; the cells are stated by `RectifyTableCorrect` |
| GptSchema.RectifyTableCorrect | gpt_module.py:325-331 | rectifying fails iff the column sets differ; otherwise the columns are exactly `col_order`, the rows are kept, each cell holds its value or "null" where the value was missing, and no cell is missing |
| GptSchema.RectifyWithColOrder | gpt_module_financial_agent.py:290-353 | the pipeline's call: a table with exactly the 62 product columns, in any order, rectifies without error to those 62 columns in output order |
| GptSchema.RectifyTableIdempotent | gpt_module.py:325-331 | rectifying a rectified table changes nothing |
| GptSchema.RectifyDf | gpt_module.py:325-331 | the in-place version returns a fresh table equal to the specification, or its error |
| GptTables.ConcatAvenantDf | gpt_module.py:440-443 | on success the columns are the union of the inputs', there are as many rows as in the inputs together, and they ascend by `avenant_number` |
| GptTables.ConcatAvenantDfErrors | gpt_module.py:440-443 | the call fails iff the list is empty, no table has `avenant_number`, or that column mixes numbers, dates and strings |
| GptTables.ConcatAvenantDfCorrect | gpt_module.py:440-443 | on success the columns are the union in order of appearance, the rows are a permutation of all input rows (as many as the inputs together), ascending by `avenant_number` with missing numbers last, and the table is well formed |
| GptTables.CpCgAvAllTable | gpt_module.py:266-275 | its only errors are the KeyErrors of the two date columns, and on success the helper column is gone |
| GptTables.CpCgAvAllErrors | gpt_module.py:266-275 | the merge fails iff neither input has `signature_date_cp`, or neither has `signature_date_av` |
| GptTables.KeyedRows | gpt_module.py:268-272 | before the sort, each row is its merged row ("null" dates read as missing) plus the key: the amendment date, else the CP date, parsed |
| GptTables.CpCgAvAllRows | gpt_module.py:266-275 | on success the rows are a permutation of the merged rows of both inputs, so there are as many as in both inputs |
| GptTables.CpCgAvAllOrder | gpt_module.py:271-274 | on success the rows ascend by signature date (undated rows last), and no row keeps the helper column |
| GptTables.CpCgAvAllColumns | gpt_module.py:268-274 | on success the columns are those of both inputs in order of appearance, without the helper column, and every row has exactly those columns |
| GptTables.GetDfCpCgAvAll | gpt_module.py:266-275 | the in-place version builds a fresh table equal to the specification, or its error |
| GptLoyer.Loyer2NullTable | gpt_module.py:277-308 | there are as many rows as in the input, and the only error is a KeyError naming one of the columns the clean-up reads; the rows' contents are stated by `Loyer2NullRowwise` |
| GptLoyer.SafeGateIff | gpt_module.py:281-292 | the safe path goes on iff both flag columns exist and each holds a truthy and a falsy value |
| GptLoyer.SafeEarlyReturn | gpt_module.py:281-292 | when the safe path gives up, the copy comes back with the same columns and rows, and only the two flag columns may change |
| GptLoyer.Loyer2NullErrors | gpt_module.py:293-303 | past the safe check, the clean-up raises iff a column it reads is missing; the KeyError names the first one it reads |
| GptLoyer.FirstMissing | gpt_module.py:293-302 | the result is None iff every required column is present, and otherwise the first required column, in reading order, that is absent |
| GptLoyer.Loyer2NullRowwise | gpt_module.py:277-308 | past the safe check, the row count and order are kept, the columns lose only the helper, and each row is the reference row `FixRow` of the (cast) input row |
| GptLoyer.Loyer2NullWellFormed | gpt_module.py:277-308 | from a well-formed table, the result is well formed, on the early return as past the safe check |
| GptLoyer.CoreRow | gpt_module.py:293-308 | each row of the clean-up proper is the reference row of the input row |
| GptLoyer.NullColumns | gpt_module.py:304-306 | the blanking loop keeps the columns and the row count |
| GptLoyer.NullColumnsRows | gpt_module.py:304-306 | after the loop each row has every listed column blank where the mask is set, and is unchanged elsewhere |
| GptLoyer.FixRowMovesRent | gpt_module.py:293-299 | a one-shot row with no usable price and a rent takes the rent as its price, and keeps it through the blanking; any other row keeps its price |
| GptLoyer.FixRowBlanksFees | gpt_module.py:301-306 | a one-shot row that is not a volume product has every recurring-fee column blank |
| GptLoyer.FixRowKeepsVolumeFees | gpt_module.py:302-306 | a volume product keeps its recurring fees |
| GptLoyer.FixRowKeepsOthers | gpt_module.py:296-308 | only the helper column goes away, cells outside the price, the fees and the flags are unchanged, and a row that is not one-shot is unchanged |
| GptLoyer.NullTextCountsAsOneShot | gpt_module.py:296-306 | a row whose one-shot flag is the string "null" is cleaned as a one-shot row and loses its rent |
| GptLoyer.NullColumnsInPlace | gpt_module.py:304-306 | the loop, in place, leaves the table equal to the specification |
| GptLoyer.Loyer2Null | gpt_module.py:277-308 | the in-place version returns a fresh table equal to the specification, or its error |
| Frames.AllColumnsMembers | gpt_module.py:268 | a column is in the concatenation iff it is a column of one of the inputs |
| Frames.AllRowsCount | gpt_module.py:442 | the concatenation has as many rows as the inputs together |
| Frames.SortByCorrect | gpt_module.py:443 | `sort_values` keeps the columns, permutes the rows, leaves them ascending in the column, and keeps the table well formed |
| Frames.KeyLeTrans | gpt_module.py:443 | the sort order on cells is transitive |
| Frames.KeyLeTotal | gpt_module.py:443 | the sort order on cells is total |
| DiModule.ParseBlobPath | di_module.py:112-128 | a ValueError iff the stripped path has fewer than three segments; otherwise the letter is the first segment, the company the second, the file name the last, and there is an affair iff there are more than three segments, which is then the middle segments joined by "/" |
| DiModule.ParseBlobPathKeys | di_module.py:118-127 | the company key is letter/company, and the affair key ends in the affair, or in "root" exactly when there is none |
| DiModule.ParseBlobPathRoundTrip | di_module.py:114-127 | for a stripped path with single "/" separators, the fields joined back are the path, and both keys are prefixes of it |
| DiModule.ParseBlobPathOfRejoin | di_module.py:114-127 | fields written as a path and parsed back give the same record |
| DiModule.Segments | di_module.py:114 | every piece of the split is non-empty and holds no '/' or '\\' |
| DiModule.SegmentsOfJoin | di_module.py:114 | splitting a "/"-join of segments gives the segments back |
| DiModule.JoinOfSegments | di_module.py:114 | joining the segments of a canonical path with "/" gives the path back |
| DiModule.SlugifyPath | di_module.py:131-151 | the slug uses only `[A-Za-z0-9._-]`, is no longer than a non-negative `max_len`, and never starts or ends with '-', '_' or '.'; the rewriting itself is stated by `SlugifyPathSeparator`, `SlugifyPathCollapse`, `ReplaceSeparatorsAt` and `Text.SubRunsBetween` |
| DiModule.SlugifyPathSeparator | di_module.py:148-151 | a '/', '\\', '?' or '#' between two slug pieces comes out as '_' |
| DiModule.SlugifyPathCollapse | di_module.py:148-151 | a non-empty run of characters outside `[A-Za-z0-9._-]` (none of them a separator) between two slug pieces comes out as one '-' |
| DiModule.ReplaceSeparatorsAt | di_module.py:149 | the four replacements keep the length, turn each '/', '\\', '?' and '#' into '_', leave every other character alone, and leave none of the four |
| Text.SubRunsIdentity | di_module.py:150 | a string made only of class characters is left as it is by the run substitution |
| Text.SubRunsStep | di_module.py:150 | a maximal run outside the class at the front becomes one replacement character |
| Text.SubRunsBetween | di_module.py:150 | a run outside the class between two strings of class characters becomes one replacement character, and the two strings are copied |
| DiModule.SlugifyPathOfSlug | di_module.py:148-151 | on a string that is already a slug, only the cut and the final strip act |
| DiModule.SlugifyPathIdempotent | di_module.py:148-151 | slugifying a slug again with the same non-negative `max_len` changes nothing |
| DiModule.SlugifyPathNegativeMaxLen | di_module.py:151 | a negative `max_len` counts from the end, so the slug keeps shrinking when slugified again |
| DiModule.PdfNames | di_module.py:154-156 | a name is kept iff it ends in ".pdf" in any letter case, in listing order, with every copy of a repeated name kept |
| DiModule.SelectAffair | di_module.py:159-163 | no affair, or an empty one, keeps the whole list; otherwise a name is kept iff its lower-cased form contains the affair, in order, with every copy of a repeated name kept |
| DiModule.SelectAffairUpperCase | di_module.py:163 | an affair with an upper-case letter matches no name, since only the names are lower-cased |
| DiScript.SlugifyPathAgrees | DI_script.py:27-31 | the script's `slugify_path` equals the module's on every input |
| DiScript.SlugifyPathShape | DI_script.py:27-31 | the script's slug has the allowed characters, fits a non-negative `max_len`, and has no '-', '_' or '.' at either end; through `SlugifyPathAgrees` the rewriting lemmas of `DiModule.SlugifyPath` hold for it too |
| DiScript.SlugifyPathIdempotent | DI_script.py:27-31 | the script's slug is a fixed point for the same non-negative `max_len` |

## Left out

- `get_docs` (`gpt_module.py:83-111`): the Cosmos query and the reads are network I/O. Only its exclusion filter is modelled. With `exclude_flag=False` the source reads `doc_final` before assigning it (an UnboundLocalError); that path is part of the I/O code and is not modelled.
- `get_response_df`, `print_resp_properties`, `upsert_to_cosmos`, `save_df_local`, `run_cgcp_pipeline` and `run_avenants_pipeline`: these are language-model calls, cost logging, database writes, file writes, and the pipelines that chain them.
- All `print` calls and the `verbose` switches: console output only.
- `read_pdfs` and the listing at `DI_script.py:24`: the blob listing is a parameter; only the name filter is modelled.
- `pd.to_datetime` and `pd.to_numeric(errors="coerce")`: date and number parsing are function parameters (`toDate`, `toNumber`), so the model does not commit to their grammars.
- GptTables.CpCgAvAllTable: parses each date cell on its own. pandas 2 `to_datetime` infers one format for the whole column and turns cells in other formats into NaT; that dependence between cells is not modelled.
- GptModule.ContentOf: a document's `content` is either present text or absent, read as "". A record whose `content` field is present but null is not represented. For such a record `doc.get("content", "")` gives None, so `get_cpcgav` raises TypeError on an amendment (`gpt_module.py:138`) and `process_cgcp`'s join raises TypeError on a CG or CP. The stored records always carry a string.
- Frames.Truthy: `astype(bool)` is modelled with one missing value that reads as false. pandas reads `None` as false but `NaN` as true, and the model does not tell the two apart.
- The DataFrame index: `reset_index`, `ignore_index` and the index alignment of `.loc` and `combine_first` are not modelled. Rows are positional, and every mask is as long as the table.
- Frames.SortByCorrect: promises ascending order and a permutation of the rows, not a particular order among equal keys, because pandas' default sort is not stable. A column that mixes numbers, dates and strings raises TypeError in pandas; the model raises TypeError too, with a fixed message.
- GptTables.CpCgAvAllErrors: pandas reports every missing column in one KeyError; the model's KeyError names the first missing column.
- GptLoyer.Loyer2NullErrors: the KeyError is decided before the first write to the copy. The half-cleaned copy the source discards when it raises is not modelled.
- Text.Lower: `casefold` and `lower` are modelled on ASCII letters only; other Unicode case mappings are left out.
- DiModule.SlugifyPath: the length bound and idempotence are proved for `max_len >= 0` only. A negative `max_len` follows Python's slice semantics, and `SlugifyPathNegativeMaxLen` shows it is not idempotent.
