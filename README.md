# Coverage of a literate README, modelled in Dafny

The repository keeps its code inside a README. A build script (`_build.js`)
extracts every fenced block written as ```` ```js ```` followed by
`// <name>` into `src/<name>`. It records for each block the document line
where the code starts, and writes that manifest to `mapping.json`. When the
tests run under nyc, a hook (`_requireHook.js`) rewrites the coverage table
before nyc writes it out. The records of the generated files are taken out.
Their counters and location maps are merged into one record under the
README's own path. Each file's entry ids are renamed to `"<ordinal>.<id>"`,
and every line is moved from the generated file into the document with
`x + sourceLine - 1`. Coverage reports then point at the README.

The model is organised by the program's structure:

- `js_objects.dfy` (`JsObjects`): JavaScript objects as an insertion-ordered
  key list plus a map (`Obj`). It holds `out[k] = v` (`Put`), and the lodash
  helpers the code uses: `pick`, `omit`, `keyBy` and `Object.assign`.
- `decimal.dfy` (`Decimal`): the decimal rendering of a number in a template
  literal, and its inverse.
- `sums.dfy` (`Sums`): sums over sequences, used to count hits.
- `coverage.dfy` (`Coverage`): Istanbul's per-file record, the coverage
  table, manifest entries with their resolved paths, and hit counts.
- `key_combiner.dfy` (`KeyCombiner`): `createPrefixMap` and the `combine`
  function returned by `combineFactory`. Both are imperative methods, proved
  against specification functions.
- `line_shift.dfy` (`LineShift`): `shiftFactory`'s adder, `addLoc` and the
  three updeep shifters as pure functions.
- `require_hook.dfy` (`RequireHook`): `combineCoverageDataForGeneratedFiles`
  and the pick/omit/assign rewrite inside the `writeCoverageFile` wrapper.
- `build.dfy` (`Build`): the fence scanner `scan` and the manifest
  projection.

Three design decisions run through the model:

- **Objects.** `Obj.keys` is `Object.keys` order. Putting a new key appends
  it, and overwriting a key keeps its position.
- **The prefix map.** `Combine` receives the prefix map as a parameter and
  requires that it sends each file to its position. `CreatePrefixMap` proves
  exactly that, and `CombineCoverageDataForGeneratedFiles` calls the two in
  the same order `combineFactory` does.
- **The scanner.** The regular expression `/(```js\s+\/\/[ ]+(\S+).*\n)([\s\S]*?)```/g`
  is modelled twice:
  - `MatchAt` is the deterministic match the backtracking engine settles on at one position.
  - `RegexMatch` is every split of the text that the expression admits.

  `MatchAtChoice` and `MatchAtComplete` show that they agree. `Search`
  resumes after each match the way the `/g` flag does.

## Model

| member | source | states |
|---|---|---|
| JsObjects.Put | _requireHook.js:20 | `out[k] = v` stores `v` under `k`. Another key keeps its value. A new key is appended to the key order, and an existing key keeps its place. |
| JsObjects.PutAllFresh | _requireHook.js:19-21 | Writing entries whose keys are distinct and new appends exactly those keys, in order, and keeps the object well formed. |
| JsObjects.PutAllLookup | _requireHook.js:19-21 | After a run of writes with distinct keys, each written key holds its value and every other key keeps its old one. No other key appears. |
| JsObjects.PutAllFreshValues | _requireHook.js:19-21 | Writing fresh distinct keys appends their values, in order, to the object's values. |
| JsObjects.Pick | _requireHook.js:79 | `pick(data, paths)` has exactly the keys of `data` that are listed in `paths`, with their values. |
| JsObjects.FirstIndexPrefix | _requireHook.js:79 | Appending paths to the list does not move the first occurrence of a path already in it. |
| JsObjects.PickOrder | _requireHook.js:79 | `pick` lists the keys it keeps in the order of their first occurrence in `paths`, whatever the order of `data`. |
| JsObjects.PickPositions | _requireHook.js:79 | Of two kept keys, one comes before the other exactly when its first occurrence in `paths` comes first. |
| JsObjects.Omit | _requireHook.js:80 | `omit(data, paths)` has exactly the keys of `data` that are not listed, with their values. |
| JsObjects.PickOmitPartition | _requireHook.js:79-80 | The picked and the omitted keys are disjoint, and together they rebuild the table's map. |
| JsObjects.PickOmitPermutation | _requireHook.js:79-80 | The omitted keys followed by the picked keys have no duplicates and are a permutation of the table's keys. |
| JsObjects.Assign | _requireHook.js:81-88 | `Object.assign(target, source)` has the keys of both. A key of the source has the source's value, and any other key keeps the target's value. |
| JsObjects.AssignKeys | _requireHook.js:81-88 | Copying listed keys of the source onto the target, one at a time: each listed key gets the source's value, and every other key of the target keeps its value. |
| JsObjects.KeyBy | _requireHook.js:35 | `keyBy` builds a well-formed object. |
| JsObjects.KeyByDomain | _requireHook.js:35 | `keyBy(xs, key)` has a key `k` if and only if some element of `xs` has key `k`. |
| JsObjects.KeyByLast | _requireHook.js:35 | The last element with a given key is the one filed under it. |
| Decimal.NatToString | _requireHook.js:20 | `${prefix}` is a non-empty string of decimal digits, so it holds no `.`. |
| Decimal.ParseNatToString | _requireHook.js:20 | Reading the digits back gives the number. |
| Decimal.NatToStringInjective | _requireHook.js:20 | Different ordinals render differently. |
| KeyCombiner.SplitEntryKey | _requireHook.js:20 | The key `${prefix}.${id}` splits at its first `.` back into the prefix and the id, even when the id itself contains dots. |
| KeyCombiner.EntryKeyInjective | _requireHook.js:20 | Two (file ordinal, id) pairs never give the same combined key. |
| KeyCombiner.PrefixesUpTo | _requireHook.js:29 | After `n` steps of the `forEach`, the object holds the first `n` names in order, each sent to its index. |
| KeyCombiner.PrefixMap | _requireHook.js:27-31 | The prefix map has the data's keys, in the data's order. It sends the key at position `i` to `i`, so prefixes lie in `[0, n)`. |
| KeyCombiner.PrefixesDistinct | _requireHook.js:27-31 | Two different files get different prefixes. |
| KeyCombiner.PrefixOfKey | _requireHook.js:27-31 | The prefix of a file is its position in `Object.keys(data)`. |
| KeyCombiner.CreatePrefixMap | _requireHook.js:27-31 | The loop over `Object.keys(data)` builds exactly the prefix map. |
| KeyCombiner.CombineFile | _requireHook.js:17-21 | The inner loop writes every entry `id` of one file under `"<prefix>.<id>"` with the fixed value, in the file's key order. |
| KeyCombiner.Combine | _requireHook.js:11-25 | `combine(key, fixer)` fills `out` file by file, in `Object.keys` order, using each file's prefix. The result is the combined object that the lemmas below describe. |
| KeyCombiner.CombinedUpToKeys | _requireHook.js:16-21 | After the first `n` files, the keys of `out` are the renamed ids of those files, file after file, with no key overwritten. |
| KeyCombiner.CombinedUpToValues | _requireHook.js:16-21 | After the first `n` files, the values of `out` are the fixed values of those files, in the same order. |
| KeyCombiner.KeepValues | _requireHook.js:14-20 | With the identity fixer, the values are the files' own values, unchanged. |
| KeyCombiner.RenamedKeysLength | _requireHook.js:16-21 | The sequence of renamed keys of the first `n` files is as long as those files' entries together. `CombinedShape` carries this over to the combined object. |
| KeyCombiner.CombinedUpToEntry | _requireHook.js:20 | Entry `id` of file `i` is found under `"<i>.<id>"`, holding `fixer(value, fileName)`, once file `i` has been processed. |
| KeyCombiner.CombinedUpToOrigin | _requireHook.js:16-21 | Every key of `out` is `"<i>.<id>"` for an entry `id` of an already processed file `i`. |
| KeyCombiner.CombinedShape | _requireHook.js:16-23 | The whole combined object: it is well formed, its keys, its size (the sum of the per-file counts), its values, where each entry goes, and where each key comes from. |
| LineShift.Adder | _requireHook.js:36-39 | The shift `x + sourceLine - 1` sends line 1 to `sourceLine`, moves every line by `sourceLine - 1` and preserves order strictly. |
| LineShift.Remover | _requireHook.js:38 | The shift can be undone exactly. |
| LineShift.AddLoc | _requireHook.js:41-45 | `addLoc` through updeep changes only `start.line` and `end.line`. Columns are kept. |
| LineShift.AddFnLines | _requireHook.js:53-56 | The fnMap shifter changes only `line` and both lines of `loc`. `name` and `decl` are kept. |
| LineShift.AddBranchLines | _requireHook.js:57-60 | The branchMap shifter changes `line` and both lines of every element of `locations`. It keeps their number and leaves `type` and `loc` alone. |
| LineShift.AddLocRoundTrip | _requireHook.js:42-45 | Shifting a location and shifting it back gives the original. |
| LineShift.AddFnLinesRoundTrip | _requireHook.js:53-56 | Shifting function metadata and shifting it back gives the original. |
| LineShift.AddBranchLinesRoundTrip | _requireHook.js:57-60 | Shifting branch metadata and shifting it back gives the original. |
| Coverage.GeneratedPaths | _requireHook.js:78 | `mappingData.map(file => file.path)` lists the manifest's paths in order. |
| RequireHook.ManifestIndexed | _requireHook.js:35-37 | Every path of the manifest is in the index, so `shiftFactory` finds an entry for every picked file. |
| RequireHook.ShiftOfEntry | _requireHook.js:36-39 | The last manifest entry with a path decides that file's shift, `x + sourceLine - 1`. |
| RequireHook.MergedTable | _requireHook.js:46-62 | The result has exactly one key, `resultPath`, and its record has `path === resultPath`. |
| RequireHook.CombineCoverageDataForGeneratedFiles | _requireHook.js:33-63 | The function computes the prefixes once, combines the six categories (identity for `s`, `b` and `f`, the shifters for the three maps) and files the record under `resultPath`. |
| RequireHook.MergedSizes | _requireHook.js:46-62 | Each merged category holds exactly as many entries as the files hold together. |
| RequireHook.MergedCounters | _requireHook.js:49-51 | Counter `id` of file `i` appears unchanged under `"<i>.<id>"` in the merged `s`, `f` and `b`. |
| RequireHook.MergedCounterOrder | _requireHook.js:49-51 | The merged `s`, `f` and `b` hold the counters (and the branch arrays) of all files, file after file, nothing added or lost. |
| RequireHook.MergedLocations | _requireHook.js:52-60 | Location `id` of file `i` appears under `"<i>.<id>"`, shifted by that file's own `sourceLine`. |
| RequireHook.MergedKeysOrigin | _requireHook.js:46-62 | No key in any of the six merged categories comes from anywhere else: each one is `"<i>.<id>"` for an entry `id` of that category in file `i`. |
| RequireHook.HitsUpTo | _requireHook.js:49-51 | The hits counted category by category over the first `n` files equal the hits of their records. |
| RequireHook.MergedHits | _requireHook.js:49-51 | The merged record holds exactly the hits of all the files combined. |
| RequireHook.RewriteCoverage | _requireHook.js:75-88 | The table is rewritten only when one exists. |
| RequireHook.PickedFilesIndexed | _requireHook.js:78-79 | The picked sub-table is well formed, and each of its files has a manifest entry to shift by. |
| RequireHook.PickedPrefixOrder | _requireHook.js:78-84 | The generated files are numbered in manifest order: one file's prefix is smaller than another's exactly when its path comes first in the manifest, whatever the order of the global table. |
| RequireHook.RewriteEntries | _requireHook.js:75-88 | The new table keeps each record that is neither generated nor the document's, drops every generated path, and files the merged record of the picked files under the document's path. |
| RequireHook.RewriteOrder | _requireHook.js:81-88 | When the document had no record of its own, the new key order is the kept files followed by the document. |
| RequireHook.PartitionHits | _requireHook.js:79-80 | The picked and the omitted records together count every hit of the table. |
| RequireHook.PickedHits | _requireHook.js:79-87 | The merged record counts the hits that the picked files counted. |
| RequireHook.RewriteKeeps | _requireHook.js:80-82 | A record that is neither generated nor the document's is kept exactly. |
| RequireHook.KeptHits | _requireHook.js:80-82 | The kept records count the same hits in the new table as in the old one. |
| RequireHook.RewritePreservesHits | _requireHook.js:75-88 | Unless the document had a record of its own that is replaced, the rewrite neither loses nor duplicates a hit. |
| RequireHook.RewriteWithoutGeneratedCoverage | _requireHook.js:75-88 | With no generated file covered, the document's record is still filed, with six empty maps. |
| Build.LineTerminatorIsSpace | _build.js:29 | Every line terminator that `.` refuses is matched by `\s`. |
| Build.Span | _build.js:29 | A greedy run stays inside the text. |
| Build.SpanRun | _build.js:29 | A greedy run covers only characters of its class, and stops at the first character outside it. |
| Build.FindFence | _build.js:29 | The lazy `[\s\S]*?` stops at a closing fence or at the end of the text. |
| Build.FindFenceFirst | _build.js:29 | No fence comes before the one found. |
| Build.MatchAt | _build.js:29 | A match at `p` starts at `p`, its parts come in order, and it ends inside the text. |
| Build.MatchAtChoice | _build.js:29 | Whenever the expression can match at `p`, `MatchAt` finds a match. It takes the only possible space runs, the longest name and the shortest code. |
| Build.MatchAtSound | _build.js:29 | A settled match is a match of the expression. The name ends at white space, and the code holds no fence. |
| Build.MatchAtComplete | _build.js:29 | `MatchAt` finds a match at `p` if and only if the expression matches there. |
| Build.Search | _build.js:29 | The global search yields matches at or after its start, each inside the text. |
| Build.SearchHit | _build.js:29 | A match at the current position is reported, and the search resumes after its closing fence. |
| Build.SearchMiss | _build.js:29 | With no match at the current position, the search moves on by one character. |
| Build.SearchFound | _build.js:29 | Every reported match is the match at its own start. |
| Build.SearchDisjoint | _build.js:28-32 | Reported matches do not overlap and come in document order. |
| Build.SearchFirst | _build.js:29 | No match starts before the first one reported. |
| Build.SearchGap | _build.js:29 | No match starts between two consecutive reported matches, nor after the last one. |
| Build.MatcherSticky | _build.js:29 | The matcher of a text satisfies what the search needs: every match it finds starts where it is asked and ends inside the text. |
| Build.Split | _build.js:30 | `split('\n')` gives one more piece than the text has newlines. |
| Build.SplitJoin | _build.js:30 | Joining the pieces with `\n` gives the text back. |
| Build.Scan | _build.js:27-34 | The callback loop pushes one block per match, left to right, and returns exactly the blocks of all matches. |
| Build.NoBlocks | _build.js:28-33 | `scan` returns the empty list if and only if the expression matches nowhere in the document. |
| Build.BlockContents | _build.js:29-31 | Each block comes from a match. Its name is `src/` followed by the longest non-space token after `//` and spaces. Its code is the text after the header's `\n` up to the first closing fence, and it holds no fence. |
| Build.CodeHasNoFence | _build.js:29 | The code of a match holds no fence. |
| Build.FoundSound | _build.js:29 | Every match of the search is a match of the expression, with the longest name and the shortest code. |
| Build.HeaderEnds | _build.js:29 | The header of every match ends with `\n`. |
| Build.NewlineCountConcat | _build.js:30 | The newlines of a concatenation add up. |
| Build.BlockLine | _build.js:30 | `sourceLine` is the line where the code starts, one after the header's line. |
| Build.SourceLineAfterHeader | _build.js:30 | Each block's `sourceLine` is at least 2 and is the document line of its first code character. |
| Build.LineOfOffset | _build.js:30 | The line of an offset inside a slice, in document lines. |
| Build.CodeLines | _build.js:29-30 | Offset `c` of a block's code lies on document line `sourceLine + k - 1`, where `k` is its line in the code. This is the shift the hook applies. |
| Build.LaterMatchLaterLine | _build.js:30 | A match after another one starts its code on a later line. |
| Build.SourceLinesIncrease | _build.js:28-32 | The `sourceLine` values of successive blocks strictly increase. |
| Build.Manifest | _build.js:24 | `files.map(file => omit(file, 'code'))` keeps `name` and `sourceLine` of every block, in order. |
| Build.ManifestRestore | _build.js:24 | Only `code` is removed: putting it back rebuilds each block. |

## Left out

- The nyc hook itself: patching `writeCoverageFile`, reading and reassigning the global coverage object, and calling the original afterwards. The table is an input (`None` when there is none) and the rewritten table is the result.
- `getMappingData`: reading `mapping.json` and resolving paths with `fs.realpathSync`. The resolved manifest and the README's real path are inputs.
- The unused `log` helper, which only writes to the console.
- `write`, `writeMapping`'s file write, `mkdirp` and the top-level `tap` pipeline of `_build.js`. They are file I/O; only the projection they write is modelled.
- `build.rb`. It repeats the same expression around directory creation and file writes.
- `Obj` does not model JavaScript's rule that integer-like keys come first in `Object.keys`. The keys written here are paths and `"<n>.<id>"`, which are never array indices. Istanbul's ids `"0"`, `"1"`, … are kept in the order of the input records.
- `JsObjects.Pick`, `JsObjects.Omit`: lodash's reading of a dotted path as a nested property path is not modelled. File paths are treated as plain keys.
- Strings are sequences of Unicode characters, while JavaScript works on UTF-16 code units. Lines and offsets are counted in characters.
- `RequireHook.ShiftFor`: a file missing from the manifest index would make `indexedMappingData[filePath].sourceLine` throw. The model shifts such a file by 0 instead. `PickedFilesIndexed` shows the case cannot arise, since only picked paths are combined.
- `Build.Scan`: `data.replace` with a callback is modelled as a walk over positions that calls `MatchAt` at each one. The string `replace` builds is discarded by the code and is not modelled.
- `KeyCombiner.Combine`: the closure that `combineFactory` returns is modelled as a method that takes the prefix map as a parameter. It requires the property `createPrefixMap` guarantees, namely that each file is sent to its position.
- Two behaviours of the code are kept as written:
  - The merged record is filed even when no generated file was covered (`RewriteWithoutGeneratedCoverage`), so the table is never passed through unchanged.
  - `decl` of an fnMap entry and `loc` of a branchMap entry are not shifted, because the shifters do not name them.
