# ISMIP6 indexing and comparison app, modelled in Dafny

This project models the deterministic core of the ISMIP6 indexing repository and proves what it promises:

- **the catalog builder**: the path parser that reads ice sheet, institution, model, experiment and variable out of a `gs://ismip6` object path, with the correction for files whose variable name carries the experiment as a prefix; and the crawl of the bucket that collects `.nc` files, parses them and sorts the rows;
- **the batch loader of the comparison app**: loading one variable from many files with a trace of progress callbacks, rewriting sentinel values to NaN, the span of years over all time coordinates, the shared colour range and colour map, and the coordinate extent;
- **the repair of a dataset's `time` attributes** so that they follow the CF Metadata Conventions, section 4.4 (`units` "<unit> since <date>") and section 4.4.1 (`calendar`, with `365_day` as the assumed calendar);
- **the configuration loader**: dotted-key lookup with defaults, sections, the 33 default-valued settings, and the create-once configuration instance;
- **the sidebar helpers** of both app generations: the catalog queries, NaN-marker parsing, time-step mode, variable descriptions, option labels and the refresh of selections. The older sidebar (`app_components/sidebar.py`) repeats the newer one's code for models (lines 53-61), experiments (63-75), matched files (77-88), NaN markers (90-101), time step (103-112), descriptions (115-128), option labels (152-186) and selection refreshes (329-350), so the `Sidebar` members model both; `LegacySidebar` holds the one place they differ, the variable list;
- **`format_bytes`** of the file-size script.

Listing the bucket, opening a NetCDF file (together with the grid correction applied to it), turning time coordinates into years, percentiles, random subsampling, `float()` parsing and reading YAML files are parameters of the model (oracles).

Files:

- `wrappers.dfy`, `text.dfy`, `ordering.dfy`, `collections.dfy`: Option/Result, string operations (`split`, `strip`, `startswith`, and the character classes `\s`, `\d` and `str.isspace` over all of Unicode), Python's string order with sorted de-duplication, and an insertion-ordered dictionary (a sequence of pairs, because the source depends on dict order).
- `paths.dfy`: the string form of a POSIX `pathlib` path, as the configuration loader names its file.
- `ismip6_index.dfy`, `data_loader.dfy`, `time_utils.dfy`, `config_loader.dfy`, `sidebar.dfy`, `legacy_sidebar.dfy`, `plot_file_sizes.dfy`: one module per source file.

Imperative code is modelled as methods with loops proved against a specification function: the crawl, record assembly, the batch loop and its per-file step, the sentinel loop, the year-range loop, the gathering loop of the colour range, `Config.get`, the option-label and NaN-list loops, and `format_bytes`. The four fixes of the time repair have no loop: each is a method from the old attribute dictionary to the new one whose contract states every key, the changed value through a function (`SwapDates`, `FixDayZero`). The configuration and the sidebar state are classes. The configuration singleton is a `Registry` object whose field is set once.

How the code handles failures:

- A listing failure is caught only at the institution, model and experiment levels. A failure listing the bucket or a projection directory propagates out of `build_file_index`. The model returns `BucketUnreadable` or `ProjectionUnreadable` for these.
- When no file parses, `pd.DataFrame([]).sort_values([...])` raises `KeyError`. The model returns `Err(NoRecords)`.
- The cache write after a fresh build is not guarded: a failing write raises (the write itself is left out).

## Model

| member | source | states |
|---|---|---|
| Ismip6Index.ParsePath | ismip6_index.py:45-68 | on success the URL is `gs://` followed by the input path, the ice sheet is a non-empty run of `A-Z`, institution, model and experiment are non-empty and free of `/`, and the variable is non-empty and free of `_` |
| Ismip6Index.ParseComplete | ismip6_index.py:45-66 | every path laid out as `ismip6/Projection-<ICE>/<inst>/<model>/<exp>/<token><tail>` parses, to exactly those fields with the corrected variable |
| Ismip6Index.ParseSound | ismip6_index.py:45-68 | every path that parses has that layout (so anything else yields None), and its variable is the corrected raw token |
| Ismip6Index.VariableToken | ismip6_index.py:45 | the token `([^_]+)` the regex settles on is a prefix of the rest of the path, free of `_`, and what follows it ends the match with `.nc` (or `.nc` and a final newline, as `$` allows) |
| Ismip6Index.VariableTokenOf | ismip6_index.py:45 | a token free of `_` followed by a valid tail is read back as exactly that token |
| Ismip6Index.CorrectVariable | ismip6_index.py:53-57 | the token changes exactly when it starts with the experiment and the remainder is non-empty and starts with a lower-case letter; it then becomes that remainder |
| Ismip6Index.PrefixedVariableExample | ismip6_index.py:25-28 | `exp13acabf_AIS_UCIJPL_ISSM_exp13.nc` under `exp13` is read as variable `acabf` |
| Ismip6Index.UppercaseRemainderExample | ismip6_index.py:53-57 | `exp13A1` under `exp13` keeps its name, since the remainder starts with an upper-case letter |
| Ismip6Index.SplitDirectories | ismip6_index.py:45 | the directory part of a match is the fixed root followed by the four segments, each of the right form |
| Ismip6Index.KeyLtTransitive | ismip6_index.py:168 | the lexicographic order on the five sort columns is transitive |
| Ismip6Index.KeyLtIrreflexive | ismip6_index.py:168 | no key sorts before itself |
| Ismip6Index.InsertRecord | ismip6_index.py:168 | inserting a row into sorted rows keeps them sorted and adds exactly that row |
| Ismip6Index.SortRecords | ismip6_index.py:168 | the rows come out sorted by (ice_sheet, institution, model_name, experiment, variable) and are a permutation of the input |
| Ismip6Index.Gather | ismip6_index.py:117-140 | every file collected below institutions, models and experiments ends in `.nc` |
| Ismip6Index.Below | ismip6_index.py:119-140 | a directory whose listing raises contributes nothing; an experiment contributes exactly its listed `.nc` files |
| Ismip6Index.GatherMember | ismip6_index.py:117-140 | a file is collected exactly when it lies below one of the listed directories |
| Ismip6Index.CrawlProjections | ismip6_index.py:106-144 | the crawl fails exactly when some projection directory (not ending in `/`, containing `Projection-`) cannot be listed, and then with the first such directory; otherwise every collected file ends in `.nc` |
| Ismip6Index.CrawlStopsAt | ismip6_index.py:110-144 | once a projection directory fails, the rest of the listing is not crawled and the error propagates unchanged |
| Ismip6Index.RecordOf | ismip6_index.py:151-158 | a file yields a row exactly when its path parses; the row carries the `gs://` URL and the listed size, 0 when none is listed |
| Ismip6Index.Assemble | ismip6_index.py:150-160 | one row per parseable file, no row for the others |
| Ismip6Index.Catalog | ismip6_index.py:106-168 | an unreadable bucket or projection directory is an error; a crawl where no file parses is `NoRecords`; otherwise the rows are sorted and are a permutation of the parseable files' rows |
| Ismip6Index.CatalogRows | ismip6_index.py:150-168 | a row is in the catalog exactly when some crawled file parses to it |
| Ismip6Index.CatalogRowsAreFiles | ismip6_index.py:130-157 | every catalog row comes from a listed `.nc` file, with its URL and size |
| Ismip6Index.ScanExperiments | ismip6_index.py:127-134 | the experiment loop collects what the specification of the crawl says, skipping experiments that fail |
| Ismip6Index.ScanModels | ismip6_index.py:122-137 | the model loop collects what the specification of the crawl says, skipping models that fail |
| Ismip6Index.ScanInstitutions | ismip6_index.py:117-140 | the institution loop collects what the specification of the crawl says, skipping institutions that fail |
| Ismip6Index.AssembleRecords | ismip6_index.py:150-160 | the parse loop builds the rows the specification names |
| Ismip6Index.BuildFileIndex | ismip6_index.py:71-175 | a fresh build returns the catalog specified above |
| DataLoader.Where | ismip6_comparison_app/components/data_loader.py:165 | one `where` turns exactly the elements equal to the sentinel into NaN (NaN never equals anything) and keeps shape, dimensions and coordinates |
| DataLoader.Sanitize | ismip6_comparison_app/components/data_loader.py:162-165 | after all sentinels, an element is NaN exactly when it equals some sentinel, and is otherwise unchanged |
| DataLoader.ReplaceSentinels | ismip6_comparison_app/components/data_loader.py:162-165 | the loop over the sentinels computes that array |
| DataLoader.OutcomeOf | ismip6_comparison_app/components/data_loader.py:109-185 | a file is rejected with an error for its own key, or with the uncached path's missing-variable warning; the warning arises only with the cache off |
| DataLoader.StoredUpTo | ismip6_comparison_app/components/data_loader.py:175 | the result mapping never holds a key twice |
| DataLoader.LoadFile | ismip6_comparison_app/components/data_loader.py:109-185 | one pass of the loop adds that file's callbacks, its cleaned array and its time coordinate as specified, and an error never aborts the batch |
| DataLoader.LoadDatasets | ismip6_comparison_app/components/data_loader.py:73-219 | the whole batch yields the mapping, year range and callbacks that `LoadResult` specifies, whatever `time_step` is |
| DataLoader.PercentBounds | ismip6_comparison_app/components/data_loader.py:116 | `(i / total) * 100` lies in [0, 100] for `i <= total` |
| DataLoader.PercentMonotone | ismip6_comparison_app/components/data_loader.py:116 | that percentage grows with `i` |
| DataLoader.FileEventsBounded | ismip6_comparison_app/components/data_loader.py:115-185 | the callbacks for file `i` lie between `i/total` and `(i+1)/total` percent and never decrease |
| DataLoader.JoinRuns | ismip6_comparison_app/components/data_loader.py:109-185 | consecutive files' callbacks join into one non-decreasing run in [0, 100] |
| DataLoader.EventsUpToBounded | ismip6_comparison_app/components/data_loader.py:109-185 | the callbacks for the first `k` files never decrease and stay within [0, k/total * 100] |
| DataLoader.FinalMessage | ismip6_comparison_app/components/data_loader.py:218 | the last callback's text reads "No files to load" for an empty batch (lines 105-107) and "Loaded <n> datasets successfully" otherwise, `n` the number of stored datasets |
| DataLoader.ProgressTrace | ismip6_comparison_app/components/data_loader.py:105-218 | there is at least one callback, the percentages lie in [0, 100] and never decrease, and the last callback is 100 with "No files to load" or the number of stored datasets |
| DataLoader.LoadingEventAt | ismip6_comparison_app/components/data_loader.py:115-118 | before file `i` the trace holds `(i/total)*100` with that file's model, experiment and size in MB |
| DataLoader.RejectedStep | ismip6_comparison_app/components/data_loader.py:149-155 | a rejected file adds its two callbacks and leaves mapping and time coordinates alone |
| DataLoader.StoredStep | ismip6_comparison_app/components/data_loader.py:159-175 | a stored file adds one callback, its cleaned array under its key, and its time coordinate when it has one |
| DataLoader.StoredKeys | ismip6_comparison_app/components/data_loader.py:175 | the mapping's keys are exactly the keys of files whose variable was loaded, so they are a subset of the input keys |
| DataLoader.StoredValues | ismip6_comparison_app/components/data_loader.py:162-175 | each stored array is the decoded array of a file with that key, with its sentinels rewritten |
| DataLoader.TimeRangeOf | ismip6_comparison_app/components/data_loader.py:192-216 | there is a year range exactly when all years could be read and there is at least one; it is then the minimum and maximum year, min <= max |
| DataLoader.TimeRange | ismip6_comparison_app/components/data_loader.py:192-216 | the year loop, with its `try`, computes that range |
| DataLoader.NoYearsAfter | ismip6_comparison_app/components/data_loader.py:194-216 | once reading one coordinate raises, no range is reported |
| DataLoader.ChooseColormap | ismip6_comparison_app/components/data_loader.py:276-291 | `RdBu_r` exactly when the range crosses zero, then symmetric with the larger magnitude; `Blues` pins vmin to 0 and `Blues_r` pins vmax to 0 under their conditions; otherwise unchanged `viridis`; and vmin <= vmax is kept |
| DataLoader.GlobalRanges | ismip6_comparison_app/components/data_loader.py:244-293 | both bounds exist or neither; none exactly when no finite value was gathered, with `viridis`; with a monotone percentile and low <= high, vmin <= vmax |
| DataLoader.NoRangeIffNoFinite | ismip6_comparison_app/components/data_loader.py:248-269 | when large arrays are subsampled to exactly 1,000,000 of their own values, there is no range exactly when no dataset holds a finite value |
| DataLoader.FiniteSampled | ismip6_comparison_app/components/data_loader.py:253-263 | an array with a finite value contributes at least one value to the pool |
| DataLoader.GatheredIncludes | ismip6_comparison_app/components/data_loader.py:248-266 | the pool gathered over the datasets is at least as large as any one dataset's contribution |
| DataLoader.NoFiniteNoRange | ismip6_comparison_app/components/data_loader.py:251-269 | arrays with no finite value contribute nothing, so the range is `(None, None, viridis)` |
| DataLoader.GatherAll | ismip6_comparison_app/components/data_loader.py:248-266 | the gathering loop collects every file's finite values, subsampled above a million |
| DataLoader.CalculateGlobalRanges | ismip6_comparison_app/components/data_loader.py:222-293 | the method computes the range and map that `GlobalRanges` specifies |
| DataLoader.CoordinateRanges | ismip6_comparison_app/components/data_loader.py:296-327 | `((0,1),(0,1))` for no data; otherwise the first array's x and y minimum and maximum, or `(0, nx), (0, ny)` from its last two dimensions |
| DataLoader.CoordinateRangesFirstOnly | ismip6_comparison_app/components/data_loader.py:313-314 | arrays after the first never change the extent |
| TimeUtils.FixTimeEncoding | ismip6_helper/time_utils.py:13-104 | without `time` nothing changes; otherwise only `time`'s `unit`, `units` and `calendar` change: `unit` moves to `units` when `units` is absent, `units` gets its dates swapped and then day zero repaired, and `365_day` is added when there are units but no calendar |
| TimeUtils.RenameUnit | ismip6_helper/time_utils.py:60-63 | `unit` becomes `units` only when `units` is absent, with its value kept; otherwise both stay |
| TimeUtils.SwapUnitDates | ismip6_helper/time_utils.py:66-78 | only `units` changes, to its date-swapped form |
| TimeUtils.RepairDayZero | ismip6_helper/time_utils.py:81-93 | only `units` changes, to its day-zero-repaired form |
| TimeUtils.AddCalendar | ismip6_helper/time_utils.py:96-99 | `calendar` is added as `365_day` only when units exist and no calendar does; an existing calendar is never overwritten |
| TimeUtils.SwapChangesIff | ismip6_helper/time_utils.py:71-78 | the date swap changes the units exactly when they contain a `D-D-YYYY` date |
| TimeUtils.SwapFromPermutes | ismip6_helper/time_utils.py:73 | the swap only rearranges characters: the result is a permutation of the input |
| TimeUtils.SwapAtPermutes | ismip6_helper/time_utils.py:73 | one replacement `\3-\1-\2` is a permutation of the text it replaces |
| TimeUtils.SwapAtGroups | ismip6_helper/time_utils.py:73 | one replacement is the year, a dash, the first group, a dash, the second group, all taken from the match |
| TimeUtils.FirstDateSwapped | ismip6_helper/time_utils.py:71-73 | text before the first date is kept, and the first date is rewritten with the same digits |
| TimeUtils.SwapFromNoDate | ismip6_helper/time_utils.py:71-78 | text without a date is left unchanged |
| TimeUtils.SwapExample | ismip6_helper/time_utils.py:70-73 | `1-1-2000` becomes `2000-1-1` |
| TimeUtils.SwapAtMovesDash | ismip6_helper/time_utils.py:73 | a replaced match really differs from the text it replaces |
| TimeUtils.FixDayZeroPointwise | ismip6_helper/time_utils.py:86-88 | the repair keeps the length and turns exactly the `0` of each `-<digits>-0` followed by whitespace or the end into `1`; no other character changes |
| TimeUtils.SpaceEndsDayZero | ismip6_helper/time_utils.py:86-88 | a day zero followed by any character `\s` matches is repaired |
| TimeUtils.SeparatorEndsDayZero | ismip6_helper/time_utils.py:86-88 | a day zero followed by one of the separators U+001C to U+001F is repaired |
| TimeUtils.DayZeroChangesIff | ismip6_helper/time_utils.py:86-93 | the repair changes the units exactly when they contain such a day zero |
| TimeUtils.DayZeroFound | ismip6_helper/time_utils.py:86-93 | a day zero is always repaired |
| TimeUtils.DayZeroAbsent | ismip6_helper/time_utils.py:86-93 | without a day zero the units are unchanged |
| ConfigLoader.Config.Get | ismip6_comparison_app/config_loader.py:44-69 | the loop descends along the `.`-split key and returns what `Lookup` specifies |
| ConfigLoader.FindAppend | ismip6_comparison_app/config_loader.py:63-67 | descending one more segment is taking that child of the value reached so far, when it is a dictionary |
| ConfigLoader.LookupFound | ismip6_comparison_app/config_loader.py:63-69 | when every segment is present the stored value is returned, even null or false; so a configured property (lines 88-251) always overrides its default |
| ConfigLoader.LookupMissing | ismip6_comparison_app/config_loader.py:66-67 | a missing segment or a non-dictionary on the way yields the default |
| ConfigLoader.LookupNested | ismip6_comparison_app/config_loader.py:60-69 | `get("a.b")` is `get("a")["b"]` when `get("a")` is a dictionary holding `b`, and the default otherwise |
| ConfigLoader.Config.Section | ismip6_comparison_app/config_loader.py:85 | the top-level section, or an empty dictionary when absent; no result when the loaded file is not a mapping (where `.get` raises) |
| ConfigLoader.SectionIsGet | ismip6_comparison_app/config_loader.py:71-85 | for a name without dots, `get_section(name)` agrees with `get(name, {})` |
| ConfigLoader.FindInEmpty | ismip6_comparison_app/config_loader.py:63-67 | an empty or null document holds nothing under any key path |
| ConfigLoader.EmptyDefaults | ismip6_comparison_app/config_loader.py:88-251 | with an empty or null configuration, every property is its literal default |
| ConfigLoader.SourceProperty | ismip6_comparison_app/config_loader.py:89-96 | those properties read the named entry of the `data_sources` section, falling back to the default |
| ConfigLoader.SectionDefaults | ismip6_comparison_app/config_loader.py:89-91 | a `data_sources` section without `gcs_bucket` yields `gs://ismip6` |
| ConfigLoader.SectionValueWins | ismip6_comparison_app/config_loader.py:94-96 | a configured `cache_dir` is returned as written |
| ConfigLoader.Registry.GetConfig | ismip6_comparison_app/config_loader.py:258-277 | the first call loads the file under its `pathlib` form (lines 31-37) and keeps that form as the configuration's path (a missing file is an error naming that form) and keeps the instance; every later call returns that instance whatever path is passed |
| Paths.NormalPath | ismip6_comparison_app/config_loader.py:31 | the string form of `Path(p)` is never empty |
| Paths.PathRoot | ismip6_comparison_app/config_loader.py:31 | the root kept is empty, `/` or `//`, and the path starts with it |
| Paths.PathSegments | ismip6_comparison_app/config_loader.py:31 | every kept segment is neither empty nor `.`, and holds no `/` |
| Paths.NormalPathIdempotent | ismip6_comparison_app/config_loader.py:31 | taking the `pathlib` form of a `pathlib` form changes nothing |
| Paths.DotSegmentDropped | ismip6_comparison_app/config_loader.py:31-37 | `./name` is reported as `name` |
| Paths.RepeatedSlashDropped | ismip6_comparison_app/config_loader.py:31-37 | `dir//name` is reported as `dir/name` |
| Paths.TrailingSlashDropped | ismip6_comparison_app/config_loader.py:31-37 | `dir/` is reported as `dir` |
| Paths.SegmentsAfter | ismip6_comparison_app/config_loader.py:31 | the segments of `a/b` are those of `a` followed by those of `b` |
| Paths.RootedSegments | ismip6_comparison_app/config_loader.py:31 | a root followed by kept segments joined by `/` reads back as that root and those segments |
| Sidebar.SpatialVariables | ismip6_comparison_app/components/sidebar.py:55-81 | sorted, without duplicates, and a variable is offered exactly when some row has it and the metadata, when present, does not mark it `scalar` (a missing type counts as `2D`) |
| Sidebar.SpatialOnly | ismip6_comparison_app/components/sidebar.py:70-76 | the filter loop keeps exactly the variables not marked `scalar` |
| Sidebar.DataSelectionState.AvailableVariables | ismip6_comparison_app/components/sidebar.py:55-81 | the method computes that list, `[]` for an empty catalog |
| Sidebar.DataSelectionState.AvailableModels | ismip6_comparison_app/components/sidebar.py:83-91 | sorted, without duplicates, exactly the models of rows with the selected variable; nothing without a selection |
| Sidebar.DataSelectionState.AvailableExperiments | ismip6_comparison_app/components/sidebar.py:93-105 | sorted, without duplicates, the experiments of rows with the selected variable, narrowed to the selected models only when some are selected |
| Sidebar.DataSelectionState.MatchedFiles | ismip6_comparison_app/components/sidebar.py:107-118 | exactly the rows matching variable, selected models and selected experiments, each as often as in the catalog |
| Sidebar.DataSelectionState.NanValuesList | ismip6_comparison_app/components/sidebar.py:120-131 | the loop computes the parsed list `NanValues` specifies |
| Sidebar.NanValues | ismip6_comparison_app/components/sidebar.py:120-131 | a blank text gives no values, and there are never more values than pieces |
| Sidebar.ParseEachMember | ismip6_comparison_app/components/sidebar.py:126-130 | a value is in the list exactly when some piece parses to it |
| Sidebar.ParseEachAll | ismip6_comparison_app/components/sidebar.py:126-130 | when every piece parses, the list holds one value per piece, in order |
| Sidebar.ParseEachAppend | ismip6_comparison_app/components/sidebar.py:126-130 | pieces are parsed independently and in input order |
| Sidebar.DataSelectionState.TimeStepValue | ismip6_comparison_app/components/sidebar.py:133-142 | `first` gives 0, `last` gives -1, `all` gives none, any other mode gives `time_step` |
| Sidebar.Describe | ismip6_comparison_app/components/sidebar.py:153-156 | an entry has a description exactly when it is non-empty; it is the description, followed by ` (units)` when units are non-empty |
| Sidebar.LoadVariableDescriptions | ismip6_comparison_app/components/sidebar.py:145-158 | no descriptions without a `variables` section; otherwise the loop builds `DescriptionsOf` that section |
| Sidebar.DescriptionsLookup | ismip6_comparison_app/components/sidebar.py:150-156 | the description of a variable is present exactly when its entry has a non-empty description, formatted as above |
| Sidebar.Truncate | ismip6_comparison_app/components/sidebar.py:209-210 | a description up to `max_length` is kept; a longer one ends in `...` after a prefix of it, and has length exactly `max_length` when `max_length >= 3` |
| Sidebar.OptionLabel | ismip6_comparison_app/components/sidebar.py:205-213 | the label is the option itself without a description, otherwise `option - ` followed by the truncated description |
| Sidebar.FormatOptionsWithDescriptions | ismip6_comparison_app/components/sidebar.py:182-216 | the loop builds the mapping `Formatted` specifies |
| Sidebar.FormattedEntries | ismip6_comparison_app/components/sidebar.py:204-216 | every value is an input option under its own label, and every option's label is a key |
| Sidebar.FormattedLookup | ismip6_comparison_app/components/sidebar.py:204-216 | when labels are distinct, each option's label maps back to that option |
| Sidebar.Retain | ismip6_comparison_app/components/sidebar.py:454-457 | exactly the selected items still offered, each as often as before |
| Sidebar.RetainAppend | ismip6_comparison_app/components/sidebar.py:454-457 | the refresh works item by item and keeps input order: retaining from `a + b` is retaining from `a`, then from `b` |
| Sidebar.RetainSnoc | ismip6_comparison_app/components/sidebar.py:454-457 | one more item at the end is kept, last, exactly when it is offered |
| Sidebar.RetainAllOffered | ismip6_comparison_app/components/sidebar.py:454-457 | a selection that is entirely offered is kept as it is, in order |
| Sidebar.RetainIdempotent | ismip6_comparison_app/components/sidebar.py:451-467 | a second refresh with the same options changes nothing |
| Sidebar.DataSelectionState.UpdateVariableOptions | ismip6_comparison_app/components/sidebar.py:446-449 | the selected variable is kept if still offered and cleared otherwise; nothing else changes |
| Sidebar.DataSelectionState.UpdateModelsOptions | ismip6_comparison_app/components/sidebar.py:451-458 | the selected models become the retained ones, all of them offered; nothing else changes |
| Sidebar.DataSelectionState.UpdateExperimentsOptions | ismip6_comparison_app/components/sidebar.py:460-467 | the selected experiments become the retained ones, all of them offered; nothing else changes |
| Sidebar.ModelsCanonical | ismip6_comparison_app/components/sidebar.py:83-91 | the model list is the only sorted duplicate-free list of those models |
| Sidebar.ExperimentsFromSelectedModels | ismip6_comparison_app/components/sidebar.py:102-103 | with models selected, an offered experiment comes from a selected model that is offered |
| Sidebar.MatchedFilesOffered | ismip6_comparison_app/components/sidebar.py:107-118 | a matched row's model and experiment are among those offered |
| LegacySidebar.AvailableVariables | app_components/sidebar.py:47-51 | sorted, without duplicates, exactly the variables of the catalog, without metadata filtering |
| LegacySidebar.AgreesWithoutMetadata | app_components/sidebar.py:47-51 | without metadata the newer sidebar offers exactly the older one's variables |
| LegacySidebar.MetadataOnlyNarrows | app_components/sidebar.py:47-51 | the newer sidebar offers a subset of the older one's variables, and drops one only when the metadata marks it `scalar` |
| PlotFileSizes.FormatBytes | plot_file_sizes.py:11-17 | below 1024 the size is shown in B unscaled; otherwise the unit is the first at which the size, divided by 1024 once per earlier unit, drops below 1024, and PB takes whatever is left after five divisions; the shown value is the size over that power of 1024, below 1024 except in PB |
| PlotFileSizes.UnitIndex | plot_file_sizes.py:13-16 | at most five divisions, every earlier quotient at least 1024, and the last below 1024 unless five were made |
| PlotFileSizes.ScaledIsDivision | plot_file_sizes.py:13-17 | dividing by 1024 `k` times is dividing by 1024 to the power `k` |
| Text.Split | ismip6_comparison_app/config_loader.py:60 | `str.split` on one character: at least one piece, none holding the separator |
| Text.JoinSplit | ismip6_comparison_app/config_loader.py:60 | joining the pieces with the separator gives back the key |
| Text.SplitJoin | ismip6_comparison_app/config_loader.py:60 | splitting a join of separator-free pieces gives back the pieces |
| Text.Strip | ismip6_comparison_app/components/sidebar.py:122 | `str.strip()` is empty exactly for all-whitespace text, and otherwise starts and ends with a non-space |
| Text.StripAround | ismip6_comparison_app/components/sidebar.py:122 | one white-space character on each side of a text that starts and ends with no space is stripped, leaving the text |
| Text.StripSeparators | ismip6_comparison_app/components/sidebar.py:122 | `strip()` removes the separators U+001C to U+001F and U+00A0 around a value |
| Text.StripOnlySeparators | ismip6_comparison_app/components/sidebar.py:122-123 | text made only of separators strips to nothing, so it yields no value |
| Ordering.SortedSet | ismip6_comparison_app/components/sidebar.py:91 | `sorted(unique(...))`: strictly increasing, with exactly the input's values |
| Ordering.SortedUnique | ismip6_comparison_app/components/sidebar.py:91 | there is only one strictly increasing list with given values |
| Ordering.StrLtTotal | ismip6_comparison_app/components/sidebar.py:81 | Python's string order is total |
| Ordering.StrLtTransitive | ismip6_comparison_app/components/sidebar.py:81 | and transitive |
| Collections.Get | ismip6_comparison_app/components/sidebar.py:206 | `dict.get`: present exactly for a key of the dictionary, with its value |
| Collections.GetPut | ismip6_comparison_app/components/data_loader.py:175 | after `d[k] = v`, looking up `k` gives `v` and every other key is unaffected |
| Collections.Put | ismip6_comparison_app/components/data_loader.py:175 | `d[k] = v` keeps keys distinct and in insertion order, appending a new key and replacing an existing one in place |
| Collections.MinInt | ismip6_comparison_app/components/data_loader.py:211 | `min` is an element no greater than any |
| Collections.MaxInt | ismip6_comparison_app/components/data_loader.py:212 | `max` is an element no smaller than any |
| Collections.FilterMapMember | ismip6_comparison_app/components/data_loader.py:253 | a value survives the filter exactly when some element maps to it |

## Left out

- The parquet cache of the catalog (`force_rebuild`, reading and writing the file): file I/O.
- The decode cache of the batch loader (`pn.cache` with its eviction policy): its code is not part of this model; a cached load is taken as a function of URL and variable.
- `asyncio.to_thread`: the loop is modelled as plain sequential code.
- Console output and `%.1f` formatting: the size in MB is kept as a real and the status text takes the rendering as a parameter.
- cftime and pandas year extraction: years come from an oracle, which may fail (the `try` around the year range).
- `np.percentile` and `np.random.choice`: oracles; the percentile is assumed monotone only where a lemma says so.
- Floating-point arithmetic: values are reals with explicit NaN and infinities; `np.isfinite` keeps only finite values.
- `correct_grid_coordinates`, `xr.open_dataset`, `.load()` and `.close()`: opening a file is one oracle returning the variables or the text of the exception.
- `open_ismip6_dataset`: an engine-fallback wrapper around xarray, not part of this model.
- YAML reading (`_load_config`, `load_metadata_yaml`): the parsed file is a parameter; a missing file is the `FileNotFoundError` case. Non-string YAML keys are not modelled.
- `load_experiment_descriptions`: not one of the modelled helpers.
- The progress callback is assumed not to raise: an exception from it would be caught by the loop's own `except`.
- Sidebar.NanValues: `float()` is an oracle (`parse`), so which pieces parse is not modelled.
- Sidebar: the `model` column (`institution/model_name`) is built by the app before the catalog reaches the sidebar; the model computes it from the row.
- Widgets, `param.watch` callbacks other than the three option refreshes, the plot panels, the markdown page, the app entry points and `plot_file_sizes.main`: UI wiring.
- Ismip6Index.CorrectVariable: `str.islower` is taken on ASCII letters only; a remainder starting with another lower-case letter (`é`) is not corrected by the model, as it is by the source.
- Ismip6Index.SortRecords: the order of rows whose five key columns are equal is not stated.
- Sidebar.SpatialVariables: an empty metadata file (`yaml.safe_load` gives None, so `'variables' in None` raises `TypeError`), a null or non-mapping `variables` value, or a null or non-mapping entry (where `.get` raises `AttributeError`) are not modelled; the metadata is a dictionary of string attributes.
- Sidebar.LoadVariableDescriptions: the same malformed metadata files, which make the source raise `TypeError` or `AttributeError`, are not modelled.
- Sidebar.DataSelectionState.AvailableVariables: as for `SpatialVariables`, malformed metadata files are not modelled.
- ConfigLoader.Registry.GetConfig: paths are POSIX paths; the default path used when `Config` is given None (the `config.yaml` beside the package) is not modelled, since `get_config` always passes one.
- TimeUtils.FixTimeEncoding: `str()` of a non-string `units` value is not modelled; attributes are strings.
- PlotFileSizes.FormatBytes: a NaN size is not modelled; sizes are reals.
