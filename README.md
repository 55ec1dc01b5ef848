# ocr_demo multi-thread model test: a Dafny model of its sequential core

`model_test.cc` is a benchmark driver for the Paddle inference library. It
picks models from a grouped parameter table, creates one predictor per model
instance, runs every predictor in its own thread and logs throughput. This
project models the four sequential pieces of the driver whose behaviour can
be stated exactly, and proves what they compute:

- `types.dfy` (module `Types`): the `Params` record, 32-bit `int`, and
  `Option`/`Result`.
- `model_name.dfy` (module `ModelName`): the `get_model_name` lambda. It is a
  pure function over `find_first_of` and `substr`, in 64-bit `size_t`
  arithmetic, so `npos + 1` wraps to 0. The lambda is related to a reference
  list of slash positions, `Slashes`:
  - with three or more slashes it returns the text strictly between the first
    and the third slash;
  - with one or two slashes it returns everything after the first slash;
  - with no slash it returns the whole path.
- `test_groups.dfy` (module `TestGroups`): reading the `test_groups` flag into
  an `int` with `operator>>`, using the C++11 rules:
  - leading white space is skipped;
  - an optional sign is read, then decimal digits;
  - when no digit follows, the result is 0: a failed conversion stores 0, and
    an empty or all-white-space flag stores nothing, so `tmp_int` keeps the
    0 it was initialised with (model_test.cc:224);
  - overflow saturates.

  The module also holds the selection loop, which appends the first params of
  every group only when the flag reads as 0. The flag's help text says "-1
  means test all model". The code selects nothing for "-1", and the model
  follows the code (`DefaultSelectsNothing`).
- `instance_pool.dfy` (module `InstancePool`): the creation loop. Every
  selected params gets a freshly created predictor, followed by `instance - 1`
  clones of it when `instance` is above 1 and `single_instance` is off. It fills
  `predictor_list` and `tmp_model_params` in step. Predictors are value
  handles: `Created(serial, params)` is the result of the `serial`-th
  `CreatePredictor` call, and `Cloned(origin, copy)` is the `copy`-th clone of
  `origin`. The loop is proved equal to the reference function `FanOut`, and
  the count, pairing, contiguity, order and distinctness properties are proved
  about `FanOut`.
- `input_reader.dfy` (module `InputReader`): `ReadTxtData`. The file is a
  sequence of already tokenised lines, or `None` when it cannot be opened.
  Records are read two lines at a time:
  - a header with batch, channels, height and width, in that order;
  - a payload line whose values are kept as opaque tokens.

  They are appended to the caller's list, and reading stops after
  `sample_max_num` records when that flag is positive. The method is proved
  equal to `inputDataList + Records(lines[..ReadLen(|lines|, sampleMaxNum)])`,
  where `Records` is a reference definition of the records of a file, and
  `ReadLen` counts the lines read before the `break`. For a file whose every
  header is well formed, this equals the file's records capped at
  `sample_max_num`.

## Model

| member | source | states |
|---|---|---|
| ModelName.FindFirstOf | model_test.cc:212-214 | the search result is npos, or a matching index at or after `pos` with no match between `pos` and it |
| ModelName.FindFirstOfAt | model_test.cc:212-214 | the search returns exactly the first matching index at or after `pos` |
| ModelName.SubStr | model_test.cc:215 | `substr(pos, n)` is a prefix of the suffix from `pos`, of length `min(n, size - pos)` |
| ModelName.WrapIsModular | model_test.cc:213-215 | the `size_t` addition and subtraction used by the lambda are arithmetic modulo 2^64 |
| ModelName.SlashesFromSorted | model_test.cc:212-214 | the reference slash positions are strictly increasing |
| ModelName.SlashesFromComplete | model_test.cc:212-214 | every slash at or after `pos` is among the reference slash positions |
| ModelName.FindSlash | model_test.cc:212-214 | searching for '/' from `pos` gives npos exactly when no slash follows, and otherwise gives the first of the following slashes |
| ModelName.NoHit | model_test.cc:212-215 | when the first search fails, `npos + 1` wraps to 0 and the lambda returns the whole path |
| ModelName.OneHit | model_test.cc:212-215 | when only the first search succeeds, the lambda returns everything after the first slash |
| ModelName.TwoHits | model_test.cc:212-215 | when the third search fails, the lambda returns everything after the first slash |
| ModelName.ThreeHits | model_test.cc:212-215 | when the three searches succeed, the lambda returns the text strictly between the first and the third slash |
| ModelName.ModelNameNoSlash | model_test.cc:211-216 | a path without any slash is its own model name |
| ModelName.ModelNameOneSlash | model_test.cc:211-216 | with exactly one slash, the model name is everything after it |
| ModelName.ModelNameTwoSlashes | model_test.cc:211-216 | with exactly two slashes, the model name is everything after the first |
| ModelName.FindSlashHead | model_test.cc:212-214 | a search that finds a slash returns the first of the remaining slashes, and searching again after it yields the rest |
| ModelName.FirstThreeSlashes | model_test.cc:212-214 | with three or more slashes, the three searches find the first, second and third slash |
| ModelName.ModelNameThreeSlashes | model_test.cc:211-216 | with three or more slashes, the model name is the text strictly between the first and the third |
| ModelName.ModelNameCases | model_test.cc:211-216 | `GetModelName`, the lambda as written: its result for every path, by the number of slashes: none, one or two, three or more |
| ModelName.ModelNameOfSegments | model_test.cc:211-216 | a path "/x/y/..." with slash-free `x` and `y` has model name "x/y" |
| ModelName.HomeDirModelName | model_test.cc:204-216 | every model path starting with "/home/danqing/", as in the parameter table, has model name "home/danqing" |
| ModelName.HomeDirSlashes | model_test.cc:207 | the prefix "/home/danqing/" has its slashes at 0, 5 and 13 and none elsewhere, and "home/danqing" between the first and third |
| TestGroups.SkipSpace | model_test.cc:225 | extraction skips exactly the leading white space |
| TestGroups.DigitPrefix | model_test.cc:225 | the digits read are the longest run of decimal digits at the start |
| TestGroups.Clamp | model_test.cc:225 | the stored value is the `int` nearest to the number read: no `int` is closer |
| TestGroups.ExtractInt | model_test.cc:223-225 | `ss >> tmp_int` reads a non-zero value only when the flag holds a decimal digit |
| TestGroups.ReadSigned | model_test.cc:225 | after the white space, a non-zero value needs a digit in the remaining text |
| TestGroups.ReadMagnitude | model_test.cc:225 | a non-zero value needs a digit right where the number starts |
| TestGroups.ReadOverflow | model_test.cc:225 | a digit run above INT_MAX reads as INT_MAX, and after a '-' a run above 2^31 reads as INT_MIN |
| TestGroups.Decimal | model_test.cc:223-225 | the decimal rendering of a number is a non-empty run of digits |
| TestGroups.DecimalValue | model_test.cc:223-225 | the digits of a decimal rendering have the rendered value |
| TestGroups.DigitPrefixOfDigits | model_test.cc:225 | a run of digits is read in full |
| TestGroups.ReadDigits | model_test.cc:225 | a run of digits, with or without a minus sign, reads as its saturated value |
| TestGroups.ReadSignedToString | model_test.cc:225 | the signed rendering of any `int` reads back as that `int` |
| TestGroups.ExtractIntToString | model_test.cc:223-225 | `ss >> tmp_int` on the decimal rendering of any `int` yields that `int` |
| TestGroups.NoDigitReadsZero | model_test.cc:223-226 | a flag with no decimal digit at all reads as 0 and so selects every group |
| TestGroups.ReadSignedNoDigit | model_test.cc:225 | when no digit starts the number, neither first nor right after a sign, the extraction stores 0 |
| TestGroups.FirstOfEach | model_test.cc:227-229 | the loop over the groups collects the first params of every group, in group order |
| TestGroups.SelectTestModelParams | model_test.cc:222-231 | a non-empty list is kept; otherwise a flag read as 0 yields the first params of each group in group order, and any other value yields an empty list |
| TestGroups.DefaultSelectsNothing | model_test.cc:223-226 | the default flag value "-1" (declared at line 14) reads as -1, so nothing is selected |
| TestGroups.MinusOneRendering | model_test.cc:14 | the decimal rendering of -1 is "-1" |
| InstancePool.CreatePredictor | model_test.cc:256 | a created predictor is not a clone, carries its params, and is numbered by its call |
| InstancePool.Clone | model_test.cc:262 | a clone keeps the params and the origin of the predictor it was cloned from |
| InstancePool.CreatePredictors | model_test.cc:253-265 | the loop builds exactly `FanOut`, and entry k of `tmpModelParams` is the params of predictor k, with both lists of equal length |
| InstancePool.BlockGrows | model_test.cc:261-262 | each turn of the inner loop appends the next clone of the block's predictor |
| InstancePool.FanOutStep | model_test.cc:255-264 | each turn of the outer loop appends the block of one more params |
| InstancePool.BlockCount | model_test.cc:256-264 | the predictors descending from the i-th params are exactly the entries of its block, and there is one when `single_instance` is set or its `instance` is at most 1, otherwise `instance` of them (the count `Instances`) |
| InstancePool.FanOutLength | model_test.cc:253-265 | the predictor list has as many entries as the instance counts add up to |
| InstancePool.FanOutPrefix | model_test.cc:253-265 | the predictors of a prefix of the params are a prefix of the predictor list |
| InstancePool.FanOutBlock | model_test.cc:256-264 | block i has `Instances` entries: first the freshly created predictor, then clones 1.. of that same predictor |
| InstancePool.OffsetMonotone | model_test.cc:253-265 | the block starts do not decrease along the params list |
| InstancePool.FanOutEntry | model_test.cc:253-265 | every predictor descends from some params, carries that params, and lies inside that params' block |
| InstancePool.OffsetOfInit | model_test.cc:253-265 | the block starts of the earlier params do not depend on the params after them |
| InstancePool.FanOutLast | model_test.cc:256-264 | the entries after the blocks of all but the last params are the last params' block |
| InstancePool.FanOutOrdered | model_test.cc:253-265 | the originating params appear in list order, so the predictors of one params are contiguous |
| InstancePool.FanOutDistinct | model_test.cc:256-262 | no predictor appears twice in the list |
| InstancePool.FanOutSingle | model_test.cc:261 | with `single_instance` set, every params gets exactly its created predictor and nothing else |
| InputReader.Records | model_test.cc:52-70 | a file with n lines holds ceil(n/2) records |
| InputReader.ReadLen | model_test.cc:72-75 | the lines read are at most the whole file, at most `2 * sample_max_num` when that is positive, and fewer than the file only when the cap is positive, by stopping at exactly that many; a cap of 0 or below reads the whole file |
| InputReader.ReadTxtData | model_test.cc:47-82 | an unopenable file is the fatal error; otherwise the caller's list is extended, never cleared, by the records of the lines read before the `break`, in order; only the headers of those lines need to be well formed |
| InputReader.Capped | model_test.cc:72-75 | the records kept are the first ones in file order: all of them when the cap is not positive, otherwise as many as the cap allows |
| InputReader.ReadingMatchesCapped | model_test.cc:52-75 | for a file whose every header is well formed, one call appends its records capped at `sample_max_num`: the first ones in file order |
| InputReader.LaterLinesUnread | model_test.cc:72-75 | with a positive cap of m records, the lines after the first 2m are never read, whatever they hold |
| InputReader.TrailingHeaderRecord | model_test.cc:61-70 | a header on the last line still yields a record, with its batch size and an empty payload |

## Left out

- Paddle `Config` and `Predictor` construction, the configuration switches, and the internals of `Run` and `Clone` (model_test.cc:84-142, 149-164). They are foreign library calls; predictors are opaque value handles here.
- The `single_thread` path (model_test.cc:234-243), the thread spawning and joining (model_test.cc:246, 270-282), and `Predict` itself. The index handed to each thread is not modelled.
- Timing and the FPS and latency arithmetic (model_test.cc:19-27, 173-186): wall-clock time and floating point.
- The conversion of payload numbers with `stream1 >> a` (model_test.cc:64-68). Each line's float extractions are taken as given opaque tokens.
- InputReader.ReadTxtData: requires every header line that is read, i.e. every even-numbered line before the `break`, to hold four integers. On such a malformed header the C++ stream leaves fields unset or zeroed, and that is not modelled. Lines after the `break` are unconstrained.
- InputReader.ReadTxtData: `LOG(FATAL)` ends the process. Here it is the `Err(CannotOpen)` result, and the caller's list is not returned on that path.
- The by-reference `input_data_list` is an input list plus a returned list. Aliasing of the caller's vector is not modelled.
- The `int` counters `num`, `i` and `j` are taken not to overflow. `j` is an `int32`; `num` and `i` are unbounded.
- TestGroups.SelectTestModelParams and TestGroups.FirstOfEach: require every group to be non-empty when the flag reads 0. Taking `item[0]` of an empty group (model_test.cc:228) is undefined behaviour, which the model does not describe.
- InstancePool.Clone: object identity is modelled by the clone's number. `std::move` and the `shared_ptr` ownership are not modelled.
- gflags and glog plumbing and the hardcoded parameter table (model_test.cc:12-16, 191, 204-209). The flags are parameters. The table's one model path enters only through `HomeDirModelName`.
- `std::size_t` is taken to be 64 bits wide.
- The flag is read in the "C" locale. Other locales' white space and digit grouping are not modelled.
