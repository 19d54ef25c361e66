# Neuronpedia realm ingestion, modelled in Dafny

This project models the scripts that fill a local Neuronpedia database
("realm") from batch files, and the record shaping of the dashboard
generator that produces those batch files:

- **Explanation upload.** `realm/upload_explanations.py` detects the model
  and its layer count from the first batch files. It creates whatever the
  explanations depend on if it is missing: the default user, the
  explanation types, the model, the source set with one source per layer,
  and one neuron per feature. It then inserts the explanations, and with
  the older uploader the activations, with `ON CONFLICT DO NOTHING`. It
  works in chunks of 100 and commits after each chunk.
- **Streaming activation upload.** `realm/upload_activations.py` can clear
  a source set's activations. It then streams every record of every batch
  file in under an id that carries its file and line position, and skips
  records whose neuron does not exist. Last, it prunes every feature to
  the rows that fewer than `top_n` rows of the same feature outrank.
- **Feature statistics.** `realm/upload_feature_stats.py` writes the
  statistics columns of existing neurons. It never creates one.
- **`maxActApprox` repair.** `realm/fix_max_act.py` gives neurons whose
  `maxActApprox` is 0 or NULL the largest `maxValue` among their
  activations.
- **`sae_to_topics` document.** `realm/generate_sae_to_topics.py` builds
  the document from the feature and explanation files, and
  `realm/update_sae_to_topics.py` refreshes three fields of the entries
  already in it.
- **Dashboard generator.** In
  `utils/neuronpedia-utils/neuronpedia_utils/generate-dashboards-as-saelens.py`,
  `process_data` turns a batch of dashboards into Feature and Activation
  records. The parts of `main` that are plain text are also modelled: the
  source id, the HuggingFace folder id, the `instruct` flag and the
  "equivalent command". The command is printed as written and corrected,
  since the code as written drops a false boolean (see Findings).

## How the model is built

The database is a `Database` class, in `store.dfy`:

- one `map` field per table, keyed by the table's primary key;
- a `committed` snapshot of all tables.

`Commit` makes the working state the snapshot. `Rollback` restores the
snapshot. Every script method states which tables it changes, what they
are afterwards, and that it leaves the store committed (`Settled`).

An `INSERT ... ON CONFLICT DO NOTHING` run is the function `InsertAbsent`,
and its insert count is `Inserted`. A batch file is a sequence of parsed
records.

The three scripts that each copy `extract_layer_from_source` share one
definition, `Keys.ExtractLayer`:

- `realm/upload_explanations.py:55-60`
- `realm/upload_activations.py:77-82`
- `realm/upload_feature_stats.py:79-84`

The same goes for the model-id cleaner, `Keys.CleanModelId`:

- `realm/upload_explanations.py:137`
- `realm/upload_activations.py:268`
- `realm/upload_feature_stats.py:185`

Python's builtins are modelled in `text.dfy`:

| Python | Dafny |
|---|---|
| `str` of an integer | `IntToString` |
| `int()` | `ParseInt` |
| `str.split(c)[0]` | `BeforeFirst` |
| `replace`, `lower` | `ReplaceChar`, `Lower` |
| SQL `LIKE` | `Like` |

### Where the model follows the code rather than the description

- **Explanation ids.** The ids are built from the integer layer,
  `local_{model}_{layer}_{index}`, not from the source id
  (`realm/upload_explanations.py:337`).
- **Pruning keeps ties.** A row is deleted only when at least `top_n` rows
  of its feature have a strictly larger `maxValue`. A feature can
  therefore keep more than `top_n` rows (`Pruning.TiesExceedTopN`).
- **The repair's filters.** As `fix_max_act.py` is written, its filters do
  not constrain neurons whose `maxActApprox` is 0. Only the selection
  lemmas (`SelectedAsWritten`, `PrecedenceCounterexample`) follow that
  code. The repair itself models the parenthesised clause (see Findings).

## Model

| member | source | states |
|---|---|---|
| Keys.ExtractLayerSpec | realm/upload_explanations.py:55-60 | The layer is the integer parse of the text before the first `-`, or of the whole field when there is no `-`. The field is rejected exactly when that text does not parse. |
| Keys.ExtractLayerExample | realm/upload_explanations.py:55-60 | `20-realm-l20r-8x` gives 20 and `7` gives 7. `-3` is rejected. |
| Keys.ExtractLayerOfJoin | realm/upload_explanations.py:55-60 | The layer is read back from any text that starts with its digits and a `-`. |
| Keys.SourceIdSpec | realm/upload_explanations.py:198 | The layer can be read back from a source id `{layer}-{set}`, and the id ends with `-{set}`. |
| Keys.CleanModelId | realm/upload_explanations.py:137 | The cleaned id has the same length, holds no `/`, `_` or upper-case letter, has `-` wherever the raw id had `/` or `_`, and every other character lower-cased. |
| Keys.CleanModelIdIdempotent | realm/upload_explanations.py:137 | Cleaning a cleaned id changes nothing. |
| Keys.ExplanationIdInjective | realm/upload_explanations.py:337 | Within one model, an explanation id determines the layer and the index. |
| Keys.ExplanationId | realm/upload_explanations.py:337 | An explanation id starts with `local_{model}_` and ends with `_{index}`. |
| Keys.ActivationIdInjective | realm/upload_activations.py:128 | Within one model, a streaming activation id determines the layer, the index, the file position and the line position. |
| Keys.ActivationId | realm/upload_activations.py:128 | A streaming activation id starts with `act_{model}_`. |
| Text.NatToString | realm/upload_explanations.py:337 | The decimal text of a number is non-empty and all digits, and is one digit exactly for numbers below 10. |
| Text.IntToString | realm/upload_explanations.py:337 | `str` of an integer is the digits of its magnitude, with `-` in front when it is negative. |
| Text.ParseInt | realm/upload_explanations.py:55-60 | `int()` succeeds exactly on a non-empty digit string, or a `-` or `+` followed by a non-empty digit string. A digit string reads as its decimal value, `-` negates it and `+` keeps it, and the empty text is rejected. |
| Text.ParseIntRoundTrip | realm/upload_explanations.py:55-60 | `int(str(i)) == i` for every integer. |
| Text.NatToStringInjective | realm/upload_explanations.py:337 | Distinct numbers have distinct decimal texts, so ids built from them differ. |
| Text.BeforeFirst | realm/upload_explanations.py:59 | `split(c)[0]` is a prefix without `c`, followed in the text by `c` when the text has one, and the whole text otherwise. |
| Text.Lower | realm/upload_explanations.py:137 | Lower-casing maps every character on its own and keeps the length. |
| Text.ReplaceChar | realm/upload_explanations.py:137 | `replace` of one character changes exactly the occurrences of that character. |
| Text.ReplaceAllAbsent | utils/neuronpedia-utils/neuronpedia_utils/generate-dashboards-as-saelens.py:263 | Replacing a pattern that does not occur changes nothing. |
| Text.LikeLiteral | realm/fix_max_act.py:47-49 | A pattern free of `%` and `_` matches exactly itself. |
| Text.LikeSuffixIsEndsWith | realm/upload_activations.py:94 | `LIKE '%{lit}'` holds exactly when the text ends with `lit`. |
| Text.LikeInfixIsContains | realm/fix_max_act.py:47-49 | `LIKE '%{lit}%'` holds exactly when the text contains `lit`. |
| Store.Database.constructor | realm/upload_explanations.py:89-102 | A new connection sees the given tables with nothing pending. |
| Store.Database.Commit | realm/upload_explanations.py:367 | A commit keeps the working state and makes it the committed one. |
| Store.Database.Rollback | realm/upload_feature_stats.py:218-220 | A rollback restores every table to the last commit. |
| Store.InsertAbsent | realm/upload_explanations.py:334-359 | After a run of `ON CONFLICT DO NOTHING` inserts, the keys are those of the table and of the rows, and rows already present are never changed. |
| Store.InsertedGrowth | realm/upload_explanations.py:358-359 | The count of rows that went in is exactly how much the table grew. |
| Store.InsertAbsentPresent | realm/upload_explanations.py:340-357 | Rows whose keys are all present change nothing. |
| Store.InsertAbsentIdempotent | realm/upload_explanations.py:340-359 | Replaying the same rows changes nothing and counts 0. |
| Store.InsertAbsentFirstWins | realm/upload_explanations.py:397-406 | For a new key, the first row carrying it is stored and later rows with that key are dropped. |
| Store.InsertAbsentKeeps | realm/upload_explanations.py:340-357 | A property of every old row and every offered row holds of every row afterwards. |
| Records.GroupByLayer | realm/upload_explanations.py:481-489 | Grouping succeeds exactly when every layer field parses. Each layer that occurs then holds exactly its records in file and line order, and no other layer is listed. |
| Records.GroupFile | realm/upload_explanations.py:483-489 | The records of one file are appended to their layers' buckets in order. It fails exactly when a layer field does not parse. |
| Records.AddToGroup | realm/upload_explanations.py:485-489 | One record is appended to its layer's bucket. A new layer is added at the end of the key order. |
| Records.InLayerEmpty | realm/upload_explanations.py:481-489 | A layer has no records exactly when no record's layer field gives it. |
| Records.MaxOfSet | realm/upload_explanations.py:86 | `max(s) if s else 0` is 0 for the empty set, and otherwise is the element of `s` that no element exceeds. |
| Records.MaxLayerOfSet | realm/upload_explanations.py:80-87 | The largest element of the layer set is the largest layer among the records. |
| Records.FileLayers | realm/upload_explanations.py:81-84 | Reading one file's layers succeeds exactly when they all parse, and gives the file's layer set. |
| Records.GetModelInfo | realm/upload_explanations.py:62-87 | No batch files, or an empty first file, is an error. Otherwise it succeeds exactly when the layers of the first three files parse. The result is the first record's model id and 1 + the largest of those layers. |
| Records.Chunks | realm/upload_explanations.py:330-332 | The chunks concatenate to the list, none is empty or longer than `n`, and all but the last have exactly `n` elements. |
| Records.ChunkAt | realm/upload_explanations.py:330-332 | Chunk `k` is the slice `s[k*n : k*n+n]` of Python's `range(0, len(s), n)` loop. |
| Records.PerLayerHas | realm/upload_explanations.py:326-335 | Every record of every listed layer contributes its row to the layer-by-layer rows. |
| Records.PerLayerFrom | realm/upload_explanations.py:326-335 | Every row produced layer by layer comes from one record of one listed layer. |
| Guarantor.EnsureUser | realm/upload_explanations.py:104-129 | Only the user table changes. It gains the user if missing, an existing user is kept, and the id is returned. |
| Guarantor.NewUserSpec | realm/upload_explanations.py:115-118 | The default user has the fixed name and e-mail, and an unsubscribe code `unsubscribe-{id}` from which the id is read back. |
| Guarantor.NewModel | realm/upload_explanations.py:146-152 | A new model row has the detected layer count, 4096 neurons per layer, and the user as creator and owner. |
| Guarantor.EnsureModel | realm/upload_explanations.py:131-165 | Only the model table changes. It gains the new model row under the cleaned id when that id is missing, and the cleaned id is returned. |
| Guarantor.EnsureModelKeepsLayers | realm/upload_explanations.py:137-152 | The cleaned id is present afterwards. An existing model is left as it was, whatever layer count was detected. A new one gets the detected count and 4096 neurons per layer. |
| Guarantor.LayerSources | realm/upload_explanations.py:197-209 | One source row per layer `0 <= l < n`, in layer order, with id `{l}-{set}`. |
| Guarantor.NewSourceSetSpec | realm/upload_explanations.py:181-193 | A new source set is public, has the user as creator id and the default creator name, and its description ends with the model id. |
| Guarantor.EnsureSourceSet | realm/upload_explanations.py:167-219 | Only the source-set and source tables change. The set is created if missing. Every layer below the layer count gets a source if missing, existing ones are kept, and all of it is committed. |
| Guarantor.ExplanationTypeRowsSpec | realm/upload_explanations.py:225-239 | Three types with distinct names, `imported` among them, each with the user as creator id and `system` as creator name. |
| Guarantor.ExplanationModelTypeRowsSpec | realm/upload_explanations.py:255-268 | Two model types with distinct names, `unknown` among them, none with a creator id, and `system` as creator name. |
| Guarantor.EnsureExplanationTypes | realm/upload_explanations.py:221-249 | Only the explanation types change. The three types are offered with `ON CONFLICT DO NOTHING`, so `imported` exists afterwards. |
| Guarantor.EnsureExplanationModelTypes | realm/upload_explanations.py:251-278 | Only the explanation model types change. The two types are offered without replacing existing ones, so `unknown` exists afterwards. |
| Guarantor.EnsureLayerNeurons | realm/upload_explanations.py:285-300 | The neurons of one layer's records are inserted if absent, and nothing is committed. |
| Guarantor.EnsureNeurons | realm/upload_explanations.py:280-318 | Only the neuron table changes. Every record gets its neuron `(model, {layer}-{set}, str(index))` if missing, and existing neurons are untouched. |
| Writers.InsertExplanation | realm/upload_explanations.py:335-359 | One insert stores the row under `local_{model}_{layer}_{index}` unless the id exists. It reports a new row exactly when the id was absent. |
| Writers.ExplanationEntrySpec | realm/upload_explanations.py:335-357 | A record of layer `l` gives the row under `local_{model}_{l}_{index}`. The row names the record's neuron, its source id gives `l` back, it carries the description, and it falls back to `imported` and `unknown` for missing types. The user is the author. |
| Writers.InsertExplanationChunk | realm/upload_explanations.py:332-364 | A chunk is inserted in order, and the count is the number of ids that were new. |
| Writers.InsertLayerExplanations | realm/upload_explanations.py:326-369 | A layer goes in as consecutive chunks of 100 with a commit after each. The result is the whole layer's insert, and the count is the number of new ids. |
| Writers.InsertExplanations | realm/upload_explanations.py:320-378 | Every layer is inserted in dictionary order. The table is the old one plus every new id, existing rows are unchanged, and the count is the number of new ids. |
| Writers.InsertLegacyActivation | realm/upload_explanations.py:396-421 | One insert stores the row under `act_{model}_{layer}_{index}` unless that id exists. |
| Writers.LegacyActivationEntrySpec | realm/upload_explanations.py:396-418 | A record of layer `l` gives the row under `act_{model}_{l}_{index}`. The row names the record's neuron, its source id gives `l` back, it carries the tokens, values and extremes, and a missing `maxValueTokenIndex` is 0. |
| Writers.InsertLegacyActivationChunk | realm/upload_explanations.py:392-426 | A chunk of the older uploader is inserted in order, and the count is the number of new ids. |
| Writers.UploadLayerActivations | realm/upload_explanations.py:386-430 | One layer of the older uploader goes in chunk by chunk, with a commit after each. |
| Writers.UploadActivations | realm/upload_explanations.py:380-440 | The older activation uploader inserts every layer in order, and the count is the number of new ids. Its ids have no position, so only the first record of a feature is stored (`Store.InsertAbsentFirstWins`). |
| Upload.ExplanationsResolve | realm/upload_explanations.py:517-528 | When every grouped record's neuron exists, every explanation row afterwards refers to an existing neuron. |
| Upload.ActivationsResolve | realm/upload_explanations.py:517-532 | The same holds for the rows of the older activation uploader. |
| Upload.EnsureAuthorship | realm/upload_explanations.py:464-466 | Only the user and type tables change. The default user, `imported` and `unknown` exist afterwards. |
| Upload.EnsureDependencies | realm/upload_explanations.py:464-474 | Neurons, explanations and activations are untouched. Afterwards the default user, both fallback types, the model under its cleaned id, its source set and a source per layer exist. |
| Upload.UploadGroups | realm/upload_explanations.py:517-532 | Neurons are created for both kinds of records, then explanations and activations are inserted. Every record then has its neuron and its row, the counts are the new ids, and rows keep referring to existing neurons. |
| Upload.UploadRecords | realm/upload_explanations.py:481-532 | This succeeds exactly when every layer field of both kinds of files parses. On failure nothing is written. On success every record is uploaded and each table grew by its count. |
| Upload.UploadExplanationsComplete | realm/upload_explanations.py:442-546 | It succeeds exactly when the model can be detected and every layer parses. An undetectable model writes nothing. A layer error leaves neurons, explanations and activations as they were, though the committed dependency steps remain. Success uploads every record under the cleaned id and set name. |
| Activations.Cleared | realm/upload_activations.py:84-105 | The delete removes exactly the model's rows whose layer matches `%-{set}`. Every other row is kept as it was. |
| Activations.ClearedIsSuffix | realm/upload_activations.py:94 | For a set name without wildcards, a row is deleted exactly when it is the model's and its layer ends with `-{set}`. |
| Activations.ClearedIdempotent | realm/upload_activations.py:84-105 | A second delete removes nothing. |
| Activations.ClearExistingActivations | realm/upload_activations.py:84-105 | Only the activation table changes, it becomes the cleared table, it is committed, and the count is the number of rows removed. |
| Activations.StreamRecord | realm/upload_activations.py:122-162 | One record fails exactly when its layer does not parse. Otherwise it inserts its row only when its neuron exists, and counts 1 exactly when a row went in. |
| Activations.StreamEntry | realm/upload_activations.py:124-160 | Record `j` of file `i` gives the row under `act_{model}_{l}_{index}_{i}_{j}`. The row names the record's neuron, its layer column gives `l` back and ends with `-{set}`, it carries the tokens, values and extremes, and a missing `maxValueTokenIndex` is 0. |
| Activations.StreamFile | realm/upload_activations.py:120-169 | The records of one file are inserted in order. It fails exactly when a layer does not parse. |
| Activations.UploadFile | realm/upload_activations.py:116-180 | One file is committed when every record went through and rolled back otherwise. The running total is carried across files. |
| Activations.FilesParseSpec | realm/upload_activations.py:117-176 | The file-by-file parse check holds exactly when every file's layers parse. |
| Activations.StopsAt | realm/upload_activations.py:116-180 | A failure at file `k` leaves the files before `k` inserted. |
| Activations.StreamUploadActivations | realm/upload_activations.py:107-184 | It succeeds exactly when every layer parses. Then the table gains exactly the offered rows and the total is the number that went in. On failure the files before the bad one stay committed. |
| Activations.StreamRowsOrigin | realm/upload_activations.py:117-162 | Every row of `StreamRows`, the rows the upload offers, is the row of one record of one file whose layer parses and whose neuron exists. |
| Activations.StreamRowsHas | realm/upload_activations.py:117-162 | Every row a record offers is among `StreamRows`, the upload's rows. |
| Activations.UploadedRecordPresent | realm/upload_activations.py:124-162 | A record whose neuron exists has its row under `act_{model}_{layer}_{index}_{i}_{j}` afterwards. |
| Activations.SkippedRecordAbsent | realm/upload_activations.py:131-138 | A record whose neuron does not exist creates no row under its id. |
| Activations.StreamRowsResolve | realm/upload_activations.py:131-162 | Every offered row refers to an existing neuron. |
| Activations.StreamKeepsDependents | realm/upload_activations.py:107-184 | The upload keeps every activation referring to an existing neuron. |
| Pruning.PruneLayers | realm/upload_activations.py:206-218 | The deletes of a set of sources remove exactly the rows of those sources outranked by at least `top_n` rows of their feature, judged on the table as the deletes start. Other rows are kept. |
| Pruning.OutrankingSpec | realm/upload_activations.py:211-217 | The rows counted against a row are rows of the table, and a row never counts against itself. |
| Pruning.DoomedSpec | realm/upload_activations.py:206-218 | Only rows of the model and of a pruned source are deleted. A table with fewer than `top_n` rows loses none, and a `top_n` of 0 or less deletes every row of the pruned sources. |
| Pruning.Prune | realm/upload_activations.py:186-248 | A row goes exactly when it is the model's, is in the set, and at least `top_n` rows of its feature have a larger `maxValue` in the table before pruning. Every other row stays as it was. |
| Pruning.PruneStep | realm/upload_activations.py:201-224 | Pruning one more source after others is pruning all of them against the first table, because features do not span sources. |
| Pruning.UntouchedFeature | realm/upload_activations.py:206-218 | A row of a source not yet pruned is outranked by the same rows as before. |
| Pruning.SurvivorsDominate | realm/upload_activations.py:206-218 | Within a feature, every surviving row's `maxValue` is at least every deleted row's. |
| Pruning.PruneIdempotent | realm/upload_activations.py:186-248 | A second pruning with the same arguments deletes nothing. |
| Pruning.TiesExceedTopN | realm/upload_activations.py:206-218 | Two tied rows of one feature both survive pruning to the top 1. |
| Pruning.KeepsTopOne | realm/upload_activations.py:206-218 | Pruning `{3, 5, 1}` to the top 1 leaves only the row with 5. |
| Pruning.DistinctValuesKeepTopN | realm/upload_activations.py:206-218 | With distinct `maxValue`s, the survivors of a feature are its top `top_n` rows, exactly `min(n, top_n)` of them. |
| Pruning.PruneLayer | realm/upload_activations.py:206-224 | One source's delete is committed, and the count is the number of rows removed. |
| Pruning.PruneToTopN | realm/upload_activations.py:186-248 | Only the activation table changes, it becomes the pruned table, and the total is the number of rows removed. |
| ActivationsMain.FirstNonFlag | realm/upload_activations.py:315-327 | The result is none exactly when every argument is a flag. Otherwise it is the first argument that is not a flag. |
| ActivationsMain.ParseArgs | realm/upload_activations.py:312-327 | Fewer than two arguments is the usage error. Without `--skip-pruning`, `top_n` is `int(argv[2])` when that is not a flag and 20 otherwise, and a `top_n` that does not parse is an error. With the flag, the set is the first non-flag argument after the directory. |
| ActivationsMain.EffectiveTopN | realm/upload_activations.py:342 | `top_n or 20` is never 0. |
| ActivationsMain.ZeroTopNMeansTwenty | realm/upload_activations.py:342 | A `top_n` argument of `0` prunes to 20 rows per feature. |
| ActivationsMain.UploadSet | realm/upload_activations.py:278-302 | The set is cleared when the answer is yes, streamed in, and then pruned unless pruning is skipped. A layer error stops after the files before it. |
| ActivationsMain.StreamingUploadMain | realm/upload_activations.py:250-302 | With no files or an empty first file, nothing is touched. Otherwise the model id is cleaned and the set is uploaded as `UploadSet` states. |
| ActivationsMain.UploadActivationsMain | realm/upload_activations.py:304-342 | Bad arguments or a missing directory touch nothing. With no files or an empty first file the run stops and the activations are unchanged. Otherwise the run completes exactly when every layer parses, the table is then the upload with `top_n or 20`, and a layer error leaves the files before the failing one committed. |
| FeatureStats.StatsOf | realm/upload_feature_stats.py:127-153 | Each present key is copied, a `null` becomes NULL, and each missing key takes its default: `hasVector` false, steer strength 10, `frac_nonzero` 0, and `[]` for every list column. |
| FeatureStats.MaxActOf | realm/upload_feature_stats.py:127 | `maxActApprox` is the record's value, NULL for a `null`, and 0 when the key is missing. |
| FeatureStats.WithStats | realm/upload_feature_stats.py:96-153 | An update writes `maxActApprox` and the statistics columns, and keeps the source set name and the creator. |
| FeatureStats.ApplyFeature | realm/upload_feature_stats.py:86-159 | One record changes only the neuron it names, if that exists, which gets the record's statistics. No neuron is added or removed. |
| FeatureStats.ApplyFeatures | realm/upload_feature_stats.py:198-209 | Updates never create or remove a neuron. |
| FeatureStats.Existing | realm/upload_feature_stats.py:204-206 | The count never exceeds the number of records. |
| FeatureStats.LastForSpec | realm/upload_feature_stats.py:198-209 | The record found is the last one naming the neuron, and when none is found no record names it. |
| FeatureStats.ApplyFeaturesAt | realm/upload_feature_stats.py:96-159 | After a run, a neuron no record names is unchanged. Any other neuron carries the statistics of the last record naming it, with its own identity columns. |
| FeatureStats.ApplyFeaturesIdempotent | realm/upload_feature_stats.py:198-209 | Replaying the same records changes nothing more. |
| FeatureStats.ResolvesAfter | realm/upload_feature_stats.py:198-209 | Earlier updates do not change which records name an existing neuron. |
| FeatureStats.UpdateNeuronWithFeatures | realm/upload_feature_stats.py:86-165 | One update reports `true` exactly when the neuron exists. It writes that neuron's statistics and leaves every other neuron and the key columns alone. A layer that does not parse gives `false`. |
| FeatureStats.UpdateRecord | realm/upload_feature_stats.py:204-206 | One record's update extends the run and its count. |
| FeatureStats.UpdateFile | realm/upload_feature_stats.py:198-209 | One file's records are applied in order and committed. |
| FeatureStats.UpdateFeatureStatistics | realm/upload_feature_stats.py:167-222 | With no files or an empty first file, the store is untouched. Otherwise every record updates the neuron it names under the cleaned model id and the set name, with a commit per file. The count is the number of records whose neuron exists. |
| FeatureStats.UpdateStepAsWritten | realm/upload_feature_stats.py:86-165 | As written, a record whose layer does not parse raises instead of returning `false`. Any other record updates as intended. |
| FeatureStats.RunAsWritten | realm/upload_feature_stats.py:193-220 | As written, the run keeps the set of neurons, and a first file with a bad layer leaves the committed table as it was. |
| FeatureStats.RunAsWrittenAgrees | realm/upload_feature_stats.py:167-222 | Where every layer parses, the run as written equals the corrected run. |
| FeatureStats.NoLayerInAbc | realm/upload_feature_stats.py:79-84 | The layer field `abc` does not parse. |
| FeatureStats.LayerThreeNames | realm/upload_feature_stats.py:91-93 | A record with layer `3-x` and index 7 names `(m, 3-s, 7)` in set `s`. |
| FeatureStats.SkipThenUpdate | realm/upload_feature_stats.py:198-206 | The corrected run skips a record naming no neuron and updates from the next one. |
| FeatureStats.UnboundFeatureIndexCounterexample | realm/upload_feature_stats.py:161-163 | A file with a record of layer `abc` before a good record updates nothing as written, but updates the neuron when corrected. |
| FixMaxAct.SelectionAsWrittenSpec | realm/fix_max_act.py:40-51 | As written, a zero neuron is chosen whatever the filters say, and a NULL neuron only when it passes them. No other neuron is chosen. The intended clause chooses a subset. |
| FixMaxAct.SelectedAsWritten | realm/fix_max_act.py:40-51 | As written, only zero or NULL neurons are chosen, and every zero neuron is chosen. |
| FixMaxAct.SelectedIntended | realm/fix_max_act.py:40-51 | As intended, a chosen neuron is zero or NULL and passes both filters. Without filters, exactly the zero and NULL neurons are chosen. |
| FixMaxAct.PrecedenceCounterexample | realm/fix_max_act.py:40-51 | A zero neuron of another model is chosen under a model filter as written, but not as intended. |
| FixMaxAct.LayerFilterIsSubstring | realm/fix_max_act.py:47-49 | The layer filter is a substring test for a pattern without wildcards. |
| FixMaxAct.JoinedMax | realm/fix_max_act.py:54-72 | `MAX(maxValue)` over the joined activations is one of their values and none exceeds it. |
| FixMaxAct.IsQueryResult | realm/fix_max_act.py:54-72 | Each returned row names an existing zero or NULL neuron, and its maximum is one of that neuron's joined `maxValue`s. |
| FixMaxAct.Repaired | realm/fix_max_act.py:29-135 | The repair keeps the set of neurons. |
| FixMaxAct.RepairedSpec | realm/fix_max_act.py:54-113 | A chosen neuron gets the largest joined `maxValue`. Non-zero non-NULL neurons, neurons without activations, and unchosen neurons are unchanged, and no other column changes. |
| FixMaxAct.RepairIdempotent | realm/fix_max_act.py:29-135 | A second repair changes nothing. |
| FixMaxAct.UpdatedBy | realm/fix_max_act.py:107-123 | The updates keep the set of neurons. |
| FixMaxAct.UpdatedByAt | realm/fix_max_act.py:107-123 | Each fetched neuron carries its row's maximum, and every other neuron is untouched. |
| FixMaxAct.UpdatedByQueryResult | realm/fix_max_act.py:54-123 | Applying the query's rows gives the repaired table. |
| FixMaxAct.UpdateMaxAct | realm/fix_max_act.py:110-115 | One update sets only that neuron's `maxActApprox`, and reports whether it exists. |
| FixMaxAct.RunUpdates | realm/fix_max_act.py:107-123 | The loop succeeds exactly when no update fails. Then every row is applied and the count is the number of rows. |
| FixMaxAct.FixMaxActApprox | realm/fix_max_act.py:29-135 | A fetched neuron whose index is not an integer makes the query's `CAST(n.index AS INTEGER)` raise, and the run rolls back. Nothing changes when the query raises, nothing is fetched, the answer is not yes, or an update fails. Otherwise the table becomes the repaired one and the count is the number of neurons fixed. |
| Topics.LoadRecordsKeyed | realm/generate_sae_to_topics.py:46-59 | One file's loading files every record under `str(index)`. |
| Topics.LoadFilesKeyed | realm/generate_sae_to_topics.py:46-59 | The whole loading files every record under `str(index)`. |
| Topics.OverwriteAt | realm/generate_sae_to_topics.py:49-51 | Each key holds the last record with that key, and a key no record has keeps what it had. |
| Topics.LoadRecordsPrefix | realm/generate_sae_to_topics.py:46-59 | One file's loading files a prefix of its records, and stops early only once the target is reached. |
| Topics.LoadFilesPrefix | realm/generate_sae_to_topics.py:42-59 | The whole loading files a prefix of all records in file order, and stops early only at the target. Without a target, every record is filed. |
| Topics.LoadFilesBound | realm/generate_sae_to_topics.py:42-59 | With a positive `max_features`, at most that many indices are loaded. |
| Topics.LoadFile | realm/generate_sae_to_topics.py:46-59 | The inner loop computes one file's loading. |
| Topics.LoadFeatures | realm/generate_sae_to_topics.py:42-59 | The feature loop computes the whole loading with `max_features or inf`. |
| Topics.GroupSpec | realm/generate_sae_to_topics.py:64-74 | The grouping holds exactly the loaded indices that have explanations, each with all of them in file and line order. |
| Topics.GroupFile | realm/generate_sae_to_topics.py:68-74 | One explanation file extends the grouping. |
| Topics.LoadExplanations | realm/generate_sae_to_topics.py:64-74 | The explanation loop computes the grouping of all files. |
| Topics.ProcessBatchFiles | realm/generate_sae_to_topics.py:29-81 | Features are loaded up to `max_features`, keyed by their index, and the explanations of exactly the loaded indices are grouped. |
| Topics.SortNumerically | realm/generate_sae_to_topics.py:97-98 | `sorted(keys, key=int)` is ascending, lists every key once and lists nothing else. |
| Topics.PrefixKeepsSmallest | realm/generate_sae_to_topics.py:97-99 | A prefix of the sorted keys holds keys smaller than any key left out. |
| Topics.SelectIndices | realm/generate_sae_to_topics.py:97-99 | The selection is ascending, drawn from the loaded indices, and smaller than every index left out. With no negative `max_features`, it holds every loaded index. |
| Topics.BuildEntries | realm/generate_sae_to_topics.py:101-141 | Each selected index gets one entry, in order, built from its feature and its explanations. |
| Topics.FormattedAll | realm/generate_sae_to_topics.py:117-123 | Each explanation is formatted, in order. |
| Topics.FormattedSpec | realm/generate_sae_to_topics.py:119-122 | A formatted explanation has exactly the three keys, with `unknown`, `unknown` and `` as fallbacks. |
| Topics.Label | realm/generate_sae_to_topics.py:109-111 | `sae_label` is the first explanation's description, or `unknown` when there is no explanation or it has no description. |
| Topics.Density | realm/generate_sae_to_topics.py:114 | `activation_density` is the feature's `frac_nonzero`, `null` for a `null`, and 0 when the key is missing. |
| Topics.NewEntryKeys | realm/generate_sae_to_topics.py:126-139 | An entry has exactly the ten fields of the document. |
| Topics.NewEntrySpec | realm/generate_sae_to_topics.py:126-139 | An entry holds the label, the density, the formatted explanations under `other`, and the fixed `csp`, `verified` and `display` values. |
| Topics.GenerateSaeToTopics | realm/generate_sae_to_topics.py:84-148 | Each entry is that of a loaded index, with its last feature record and its explanations. Keys are in ascending numeric order, left-out indices are larger than every key, and with no negative `max_features` every loaded index has an entry. |
| Topics.TopicKeys | realm/generate_sae_to_topics.py:97-141 | The document's keys are the selected indices: ascending, the smallest loaded ones, each with its entry. |
| TopicsUpdate.RefreshedEntry | realm/update_sae_to_topics.py:143-152 | The update fails exactly when the entry, or its `other`, is not an object. |
| TopicsUpdate.RefreshedEntryFields | realm/update_sae_to_topics.py:143-152 | Only `sae_label`, `activation_density` and `other.explanations` change. `other` is created when missing, and every other field and every other key of `other` is kept. |
| TopicsUpdate.RefreshedEntryIdempotent | realm/update_sae_to_topics.py:143-152 | Updating an entry twice with the same data equals updating it once. |
| TopicsUpdate.Refreshed | realm/update_sae_to_topics.py:112-154 | The document keeps its key set, and entries that are not updated are left exactly as they were. |
| TopicsUpdate.RefreshedIdempotent | realm/update_sae_to_topics.py:112-154 | Running the update again on its output changes nothing. |
| TopicsUpdate.SelectOne | realm/update_sae_to_topics.py:112-154 | One more index keeps the run free of failures, and adds at most itself to each count. |
| TopicsUpdate.RefreshOne | realm/update_sae_to_topics.py:114-154 | An absent index is skipped and counted. An index without explanations is left alone. Any other entry is updated and counted, or raises when it is not an object. |
| TopicsUpdate.RefreshEntries | realm/update_sae_to_topics.py:112-154 | The loop fails exactly when some selected entry cannot be updated. Otherwise the document is the updated one, and the counts are the updated indices and the absent ones. |
| TopicsUpdate.UpdateSaeToTopics | realm/update_sae_to_topics.py:86-167 | The key set never changes, and the output path defaults to the input file. With no negative `max_features`, exactly the loaded indices present with explanations are updated, and the counts are those and the loaded indices missing. |
| Dashboards.DashboardSourceId | utils/neuronpedia-utils/neuronpedia_utils/generate-dashboards-as-saelens.py:496-501 | The source id starts with `{layer}-{set}`, and gains `__{suffix}` only for a non-empty suffix. |
| Dashboards.DashboardSourceIdLayer | utils/neuronpedia-utils/neuronpedia_utils/generate-dashboards-as-saelens.py:496-501 | The uploaders read the layer back out of any source id the generator writes. |
| Dashboards.HfFolderId | utils/neuronpedia-utils/neuronpedia_utils/generate-dashboards-as-saelens.py:365 | The folder id is the path without its last `/` segment, and empty when the path has no `/`. |
| Dashboards.HfFolderIdOfJoin | utils/neuronpedia-utils/neuronpedia_utils/generate-dashboards-as-saelens.py:365 | A folder joined with a file name by `/` gives back the folder. |
| Dashboards.HfFolderIdExample | utils/neuronpedia-utils/neuronpedia_utils/generate-dashboards-as-saelens.py:365 | A weights path loses its file name, and a bare file name gives the empty id. |
| Dashboards.ModelEntryOf | utils/neuronpedia-utils/neuronpedia_utils/generate-dashboards-as-saelens.py:419-427 | Every name field is the model name, and `instruct` holds exactly when the name ends with `-it`. |
| Dashboards.SeqMax | utils/neuronpedia-utils/neuronpedia_utils/generate-dashboards-as-saelens.py:547 | `max(values)` is a value that no value exceeds. |
| Dashboards.SeqMin | utils/neuronpedia-utils/neuronpedia_utils/generate-dashboards-as-saelens.py:559 | `min(values)` is a value that no value is below. |
| Dashboards.IndexOf | utils/neuronpedia-utils/neuronpedia_utils/generate-dashboards-as-saelens.py:548 | `values.index(x)` is the first position holding `x`. |
| Dashboards.ActivationOfSpec | utils/neuronpedia-utils/neuronpedia_utils/generate-dashboards-as-saelens.py:547-594 | An Activation holds the max and min of its values and the first position of the max. Its optional lists default to `[]`. |
| Dashboards.MaxActApproxSpec | utils/neuronpedia-utils/neuronpedia_utils/generate-dashboards-as-saelens.py:545-550 | The running maximum is at least 0 and at least every activation's max, and it is 0 or one of them. |
| Dashboards.ActivationsOfSpec | utils/neuronpedia-utils/neuronpedia_utils/generate-dashboards-as-saelens.py:546-596 | There is one Activation per input activation, in order. |
| Dashboards.FeatureOfSpec | utils/neuronpedia-utils/neuronpedia_utils/generate-dashboards-as-saelens.py:509-599 | `maxActApprox` is `max(0, the activations' maxima)`, and 0 without activations. Steer strength is set to it exactly when a vector key is present. `hasVector` holds exactly when the vector is present and non-empty. |
| Dashboards.ProcessFeature | utils/neuronpedia-utils/neuronpedia_utils/generate-dashboards-as-saelens.py:508-600 | One feature gives its Feature and its Activations, or fails exactly when an activation has no values. |
| Dashboards.AllActivationsAt | utils/neuronpedia-utils/neuronpedia_utils/generate-dashboards-as-saelens.py:508-600 | Activation `j` of feature `i` is at position `count(features before i) + j` of the output. |
| Dashboards.FeaturesOfSpec | utils/neuronpedia-utils/neuronpedia_utils/generate-dashboards-as-saelens.py:508-600 | There is one Feature per input feature, in order. |
| Dashboards.ProcessData | utils/neuronpedia-utils/neuronpedia_utils/generate-dashboards-as-saelens.py:490-600 | It fails exactly when an activation has no values. Otherwise it gives one Feature per feature and the Activations of all features, in input order, under the batch's source id. |
| Dashboards.OptionNameSpec | utils/neuronpedia-utils/neuronpedia_utils/generate-dashboards-as-saelens.py:257 | The option name is the parameter name with every `_` replaced by `-`. |
| Dashboards.CommandOmits | utils/neuronpedia-utils/neuronpedia_utils/generate-dashboards-as-saelens.py:253-256 | A parameter that is `None` contributes nothing to the command. As written, neither does one that is `False`. |
| Dashboards.FalseSwitchDropped | utils/neuronpedia-utils/neuronpedia_utils/generate-dashboards-as-saelens.py:227-234 | As written, the command printed for `--no-include-original-vectors-in-output` is the one printed when the option is unset, whose default is true. |
| Dashboards.SwitchKept | utils/neuronpedia-utils/neuronpedia_utils/generate-dashboards-as-saelens.py:253-257 | Corrected, a false boolean is printed as `--no-name`. The commands for a true and a false setting of the same boolean differ. |
| Dashboards.ArgumentShape | utils/neuronpedia-utils/neuronpedia_utils/generate-dashboards-as-saelens.py:253-262 | `True` gives a bare flag, in both versions. A string with a space or quote is quoted. Other values follow `=` unquoted. |
| Dashboards.BuildCommandLine | utils/neuronpedia-utils/neuronpedia_utils/generate-dashboards-as-saelens.py:252-262 | The loop puts the program name first and appends each parameter's argument in parameter order, as written or corrected. |
| Dashboards.EquivalentCommand | utils/neuronpedia-utils/neuronpedia_utils/generate-dashboards-as-saelens.py:252-263 | The command joins every argument in order, with false booleans printed in their `--no-` form, then breaks the line before each ` --`. |

## Left out

- **I/O.** The model does not cover reading and globbing batch files, gzip,
  JSON parsing, printing, progress output or the database connection
  itself. A parsed batch file is an input, and a JSON line that does not
  parse is not modelled. JSON objects are maps, so the key order that
  `json.dump` writes (update_sae_to_topics.py:166-167) is not modelled.
- **Generated values.** `NOW()` timestamps and the CUID ids of the
  dashboard generator are not modelled, as they come from the clock and a
  random generator.
- **Interactive answers.** The answers to interactive prompts are
  parameters (`response`). Whether the activation directory exists is a
  parameter too (`dirExists`).
- **Directory ordering.** The sorting of directory listings is not
  modelled. Batch files arrive in the order the scripts would process
  them.
- **Column defaults.** Columns an `INSERT` does not list take the schema's
  defaults, which are not modelled. A new `Neuron` row has a NULL
  `maxActApprox` and no statistics (`stats` is `None`): the model does not
  say what `hasVector`, `vector`, `frac_nonzero` and the other statistics
  columns hold before `upload_feature_stats.py` writes them. The columns of
  `User`, `Model`, `SourceSet`, `Source`, `Explanation` and `Activation`
  that the scripts do not list are left out as well.
- **Foreign keys.** The store enforces no foreign key. A neuron is created
  for every explanation record, but sources exist only for the layers
  below the count detected from the first three files. A record of a later
  file with a higher layer therefore gets a neuron whose source was never
  created. The real database may refuse that insert, and the model does
  not capture that.
- **JSON `null` outside feature records.** Only feature-statistics records
  tell a `null` apart from a missing key. In explanation, activation and
  topic-explanation records a `null` under `typeName`,
  `explanationModelName`, `maxValueTokenIndex` or `description` is read as
  a missing key, so the model writes the default where the scripts would
  write NULL or `null`.
- **Record fields.** Every record's `index` is an integer, and the scripts'
  `str(...)` of it is `IntToString`. The scripts keep the JSON value as it
  comes, so a string index such as `"05"` stays `05` in the neuron key, the
  explanation id and the topics key, where the model writes `5`. A
  non-numeric index cannot be expressed either. On such an index
  `sorted(..., key=int)` (generate_sae_to_topics.py:97) raises, and the
  model does not capture that. Every key a script reads with `[...]` is
  present by type, so the `KeyError` paths are not modelled: the rollback
  and exit in upload_explanations.py, the rollback and re-raise in the
  stream of upload_activations.py, and the `feature_data[...]` lookups of
  `process_data` in the dashboard generator.
- **Real numbers.** Floating-point values are `real`. Activation values are
  only compared and maximised, so rounding does not enter.
- Text.ParseInt: accepts an optional `-` or `+` and decimal digits. It does
  not accept the surrounding whitespace or the `_` separators that Python's
  `int()` also accepts.
- Text.Lower: lowers ASCII letters only. It has no Unicode case mapping.
- Text.Like: models `%` and `_` only. Backslash escapes in patterns are not
  modelled.
- Topics.GenerateSaeToTopics: for a negative `max_features` the contract
  is weaker. It states the order and the entries, but not which indices
  Python's negative slice keeps.
- TopicsUpdate.UpdateSaeToTopics: for a negative `max_features` it states
  only the key set and the output path.
- **Dashboard runner.** The dashboard generator's model and SAE loading,
  the dashboard runner, the weight downloads and the writing of its JSON
  files are foreign calls, and are not modelled. Only `process_data` and
  the text fragments of `main` are modelled.
- **Pruning log.** The query of sample counts after the pruning
  (upload_activations.py:227-241) is not modelled. Its
  `CAST(index AS INTEGER)` can raise on a non-numeric index after the
  pruning has been committed. The rollback and re-raise that would follow
  are not modelled either.
- **Deploy script.** `realm/deploy_neuronpedia_local.py` and the inference
  server are not part of this model.
- **Ordering in the repair.** `fix_max_act.py` orders its rows with
  `ORDER BY`. That order is not constrained, since the updates it feeds
  commute. The raise of its `CAST(n.index AS INTEGER)` on a non-integer
  index is modelled (`QueryRaises`); it uses the integer syntax of
  `ParseInt`, not PostgreSQL's, which also admits surrounding spaces.

## Findings

| source | as written | input that shows it | evidently intended | confidence | as-written member | corrected member |
|---|---|---|---|---|---|---|
| realm/fix_max_act.py:40 | The `AND`-joined filters attach to `IS NULL` only, because the clause `= 0 OR IS NULL` has no parentheses. | With model id argument `m` (`python fix_max_act.py m`), a neuron of model `other-model` whose `maxActApprox` is 0 is repaired. | The filters constrain every candidate. | not executed | FixMaxAct.PrecedenceCounterexample | FixMaxAct.FixMaxActApprox |
| realm/upload_feature_stats.py:161-163 | The error handler prints `feature_index`, which is unbound when the layer field fails to parse. The `UnboundLocalError` then reaches the outer handler, which rolls back the file and abandons the rest of the run. | A file whose first record has layer `abc` and whose second record names an existing neuron `(m, 3-s, 7)`: nothing is updated. | The record is skipped and the function returns `false`. | not executed | FeatureStats.UnboundFeatureIndexCounterexample | FeatureStats.UpdateFeatureStatistics |
| utils/neuronpedia-utils/neuronpedia_utils/generate-dashboards-as-saelens.py:255-257 | A boolean that is `False` adds nothing to the printed equivalent command. | `--no-include-original-vectors-in-output`: the printed command leaves the option out, and re-running it uses the default `True`. | A false boolean is printed in its `--no-` form. | not executed | Dashboards.FalseSwitchDropped | Dashboards.SwitchKept |
