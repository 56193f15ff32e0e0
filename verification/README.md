# BGPM: BGP measurement analyses, modelled in Dafny

`BGPM/bgpm.py` turns BGP capture files into six measurements:

- **1A, unique prefixes per snapshot.** For each RIB file, the number of distinct values of the `prefix` field.
- **1B, unique ASes per snapshot.** For each RIB file, the number of distinct whitespace-separated tokens across all AS paths.
- **1C, top-10 ASes by prefix growth.**
  - Each origin AS (the last token of an AS path) gets the set of prefixes it originates in each snapshot.
  - Its growth is `(c_last - c_first) / c_first`, where the counts come from its first and last appearance.
  - The result is the ten ASes with the highest growth, listed from smallest to largest growth.
- **2, shortest AS path per origin per snapshot.** A path's length is its number of distinct tokens. Lengths of at most one are ignored. An origin missing from a snapshot gets 0 there.
- **3, announce/withdraw durations.** For each (peer, prefix), the time from the latest announcement to the next withdrawal.
- **4, blackholing (RTBH) durations.**
  - Only an announcement tagged with a community ending in `:666` opens an event.
  - An untagged announcement cancels the open event.

Both correlators (tasks 3 and 4) carry their state across file boundaries. Only positive durations are kept. The result holds no empty entries.

The model has one module per concern:

| module | file | content |
|---|---|---|
| `Elements` | `elements.dfy` | the element record as the analyses read it; a file is its sequence of elements |
| `Tokens` | `tokens.dfy` | Python's argument-less `str.split()` over the `str.isspace()` characters, and its round trip with joining by spaces |
| `Snapshot` | `snapshot.dfy` | tasks 1A and 1B |
| `Growth` | `growth.dfy` | task 1C: per-origin prefix sets, first and last presence, growth, stable descending sort, cut to ten, reversal |
| `PathLength` | `pathlength.dfy` | task 2, both as written and corrected (see Findings) |
| `Correlator` | `correlator.dfy` | tasks 3 and 4: a step function per variant, the run over all files, the final pruning, and a single-key reference correlator |
| `Consistency` | `consistency.dfy` | how the analyses of one file relate to each other |

### Where the model makes a choice

- **Set iteration order.** `top_10_ases_by_prefix_growth` walks a Python set of origins, and that order is hash-randomised. The order decides how ties in growth are broken, because the sort is stable. In the model that order is the parameter `order`. Every ranking lemma holds for any `order` that lists each origin exactly once (`Growth.Enumerates`).
- **Which ten ASes are kept.** The code sorts by descending growth, keeps the first ten, and reverses them. The model follows the code: the ten *highest* growths, in ascending order, which matches the function's docstring.
- **First and last appearance.** These are found by checking whether the origin is a key of the snapshot. Every stored prefix set is non-empty, so this is the same as "first and last snapshot with a non-zero count". The `c_1 > 0` guard at line 165 therefore always holds. `Growth.GrowthDefinedIff` states both facts.

## Model

| member | source | states |
|---|---|---|
| `Tokens.Split` | BGPM/bgpm.py:82 | splitting yields only non-empty, whitespace-free tokens, and yields none exactly when the string is all whitespace (the case 1C skips at lines 120-122); the two lemmas below pin down the tokens themselves |
| `Tokens.SplitWordThen` | BGPM/bgpm.py:82 | a maximal whitespace-free run at the front of a string is its first token, and splitting continues after it |
| `Tokens.SplitSpaceThen` | BGPM/bgpm.py:82 | any leading whitespace character yields no token, so runs of spaces or tabs and leading or trailing whitespace never produce empty tokens; with the empty string splitting to nothing, these two lemmas fix the result on every string |
| `Tokens.SplitJoin` | BGPM/bgpm.py:82 | splitting a path written as tokens joined by single spaces gives back exactly those tokens |
| `Snapshot.PrefixSetExact` | BGPM/bgpm.py:35-48 | a prefix is in a file's set exactly when some element of the file carries it in its `prefix` field |
| `Snapshot.AsSetExact` | BGPM/bgpm.py:74-83 | an AS is in a file's set exactly when it is a token of some element's AS path; every token counts, not only origins |
| `Snapshot.UniquePrefixesBySnapshot` | BGPM/bgpm.py:28-51 | one count per input file, in file order, and each is the number of distinct prefixes of that file |
| `Snapshot.UniqueAsesBySnapshot` | BGPM/bgpm.py:67-85 | one count per input file, in file order, and each is the number of distinct AS tokens of that file |
| `Snapshot.PrefixCountAtMostElems` | BGPM/bgpm.py:35-50 | a file never has more distinct prefixes than elements |
| `Snapshot.DuplicatePrefixCountsOnce` | BGPM/bgpm.py:46-48 | adding an element whose prefix the file already carries leaves the count unchanged |
| `Growth.OriginPrefixes` | BGPM/bgpm.py:113-130 | no origin is stored with an empty prefix set |
| `Growth.CollectExact` | BGPM/bgpm.py:127-129 | after grouping, origin `o` holds prefix `p` exactly when the pair (o, p) was among the inputs |
| `Growth.OriginPrefixesExact` | BGPM/bgpm.py:117-129 | origin `o` holds prefix `p` in a snapshot exactly when some element of the file has a non-empty path ending in `o` and carries `p` |
| `Growth.FirstPresence` | BGPM/bgpm.py:143-150 | the index found is a snapshot containing the origin, and no earlier snapshot contains it; none means no snapshot contains it |
| `Growth.LastPresence` | BGPM/bgpm.py:152-160 | the index found is a snapshot containing the origin, and no later snapshot contains it; none means no snapshot contains it |
| `Growth.GrowthDefinedIff` | BGPM/bgpm.py:141-167 | an origin gets a growth exactly when it appears in two different snapshots, and then its first appearance precedes its last |
| `Growth.Candidates` | BGPM/bgpm.py:141-167 | every candidate is an origin of `order` paired with its own growth, and every origin of `order` that has a growth is a candidate |
| `Growth.SortDescending` | BGPM/bgpm.py:171 | the sort is a permutation of its input, in non-increasing growth |
| `Growth.InsertKeepsOrder` | BGPM/bgpm.py:171 | inserting into a list in non-increasing growth keeps it in non-increasing growth |
| `Growth.SortKeepsDistinct` | BGPM/bgpm.py:171 | sorting a list of distinct ASes keeps them distinct |
| `Growth.ReverseDescending` | BGPM/bgpm.py:172 | reversing a list in non-increasing growth gives one in non-decreasing growth, with the same distinct ASes |
| `Growth.CutIsTopTen` | BGPM/bgpm.py:171-173 | cutting any descending rearrangement of the candidates to ten entries and reversing it gives their top ten in ascending growth |
| `Growth.RankIsTopTen` | BGPM/bgpm.py:171-173 | the ranking is in non-decreasing growth; it keeps min(10, candidates) entries, all of them candidates; no candidate left out grows more than any entry kept; if there are at most ten candidates, all are kept |
| `Growth.RankedTopQualifies` | BGPM/bgpm.py:159-173 | at most ten ASes are ranked, each with its own growth, and each appears in two different snapshots |
| `Growth.RankedTopIsTopTenAscending` | BGPM/bgpm.py:133-173 | the ranking lists distinct ASes in non-decreasing growth, holds min(10, ASes with a growth) of them, and every AS with a growth that is left out grows no more than every AS kept |
| `Growth.TopShortHoldsAll` | BGPM/bgpm.py:171-173 | if fewer than ten ASes are ranked, every AS with a growth is ranked |
| `Growth.TopAsesByPrefixGrowth` | BGPM/bgpm.py:89-173 | the result has at most ten ASes, and each of them appears in two different snapshots |
| `PathLength.MinPathsIsLowerBound` | BGPM/bgpm.py:219-238 | every measured path of a file has an entry for its origin, and that entry is no longer than the path |
| `PathLength.MinPathsIsAttained` | BGPM/bgpm.py:230-238 | each origin's entry is the distinct-token length of some measured path ending in it, so it is at least 2 |
| `PathLength.MinPathsKeys` | BGPM/bgpm.py:221-238 | an origin has an entry for a file exactly when some measured path of the file ends in it |
| `PathLength.AsWrittenRaisesOnBlankPath` | BGPM/bgpm.py:221-226 | the loop as written raises IndexError exactly when the file holds a non-empty all-whitespace AS path; otherwise it equals the corrected loop |
| `PathLength.BlankPathRaises` | BGPM/bgpm.py:221-226 | a file with the AS path `" "` makes the loop as written raise, while the corrected loop returns no entries |
| `PathLength.MinPathsSkipsBlankPath` | BGPM/bgpm.py:221-226 | in the corrected loop, an all-whitespace path changes nothing |
| `PathLength.SetEntry` | BGPM/bgpm.py:244-246 | setting entry `ndx` extends a row too short for it with zeros, stores the value there, and leaves every other entry as it was |
| `PathLength.RecordSnapshotEntries` | BGPM/bgpm.py:240-246 | recording a snapshot into rows of full length keeps that length; entry `ndx` of each origin the snapshot measured is its minimum; other entries keep their value, and a new origin's are 0 |
| `PathLength.SeriesOrigins` | BGPM/bgpm.py:212-246 | after k files, an origin has a row exactly when one of those files measured it |
| `PathLength.SeriesIsExpected` | BGPM/bgpm.py:212-246 | after k files, every row has one entry per file, and a processed file's entry is that file's minimum, or 0 |
| `PathLength.PaddingIsNoOp` | BGPM/bgpm.py:249-252 | the final padding loop never changes a row, because every row already has one entry per file |
| `PathLength.ShortestPathBySnapshot` | BGPM/bgpm.py:177-253 | every row has one entry per file; an origin has a row exactly when some file measured it; entry i is file i's minimum for it, or 0 when file i did not measure it |
| `PathLength.ShortestPathEntry` | BGPM/bgpm.py:186-200 | an entry is 0 exactly when the file has no measured path ending in the origin; a non-zero entry is at least 2, is the length of such a path, and is no longer than any such path |
| `Correlator.Prune` | BGPM/bgpm.py:314-389 | both result builders, the announce/withdraw filter at 314-321 and the blackholing conversion at 383-389: no peer is left with an empty dictionary and no prefix with an empty list; each listed entry is the full recorded list; every key with a duration is listed |
| `Correlator.PeerDurations` | BGPM/bgpm.py:316-318 | a peer's prefixes are exactly those with a non-empty list, each with its full list |
| `Correlator.Correlate` | BGPM/bgpm.py:257-391 | for both variants (announce/withdraw at 257-323, blackholing at 326-391), the result has no empty entries, and every duration in it is strictly positive |
| `Correlator.RunKeepsPositive` | BGPM/bgpm.py:306-309 | only strictly positive durations are ever recorded |
| `Correlator.RunFilesIsOneStream` | BGPM/bgpm.py:276-277 | running the files one by one equals running their concatenation: the open announcements are never reset at a file boundary |
| `Correlator.ProjectRun` | BGPM/bgpm.py:292-312 | keys are independent: the state of each (peer, prefix) after a stream is what the single-key correlator computes from that key's elements alone |
| `Correlator.RunAppendsOnly` | BGPM/bgpm.py:304-312 | durations are only ever appended: a key's earlier list is a prefix of its later list |
| `Correlator.CorrelateIsPerKey` | BGPM/bgpm.py:257-391 | for both variants, (peer, prefix) is listed exactly when the single-key correlator, run from a closed key over every element of every file, records a duration, and then its list is exactly those durations |
| `Correlator.AnnounceThenWithdraw` | BGPM/bgpm.py:269-270 | an announcement at 10 followed by a withdrawal at 14 yields `{"127.0.0.1": {"12.13.14.0/24": [4]}}` |
| `Correlator.AnnounceThenWithdrawAcrossFiles` | BGPM/bgpm.py:276-312 | the same two elements in two different files yield the same result |
| `Correlator.UntaggedAnnouncementEndsBlackhole` | BGPM/bgpm.py:371-382 | a tagged announcement, then an untagged one, then a withdrawal yield no blackholing duration |
| `Consistency.GrowthOriginsAreAses` | BGPM/bgpm.py:74-129 | every origin 1C stores for a file is an AS that 1B counts for it, so there are no more origins than ASes |
| `Consistency.PathOriginsAreAses` | BGPM/bgpm.py:74-238 | every origin task 2 measures in a file is an AS that 1B counts for it |

## Left out

- **Reading capture files.** `pybgpstream` and the creation of one stream per file are not modelled. A file is the sequence of elements the stream would yield, each carrying its record's `time`. Peer-state and RIB elements keep their type, and both correlators ignore them.
- **Element time and floats.** Element time is an integer, and so are durations. Task 4 converts durations with `float(...)`, and task 3 keeps them in the type `record.time` has. Neither conversion changes the value of an integer difference.
- **Growth arithmetic.** Growth is an exact rational (`real`), not a floating-point number. Two growths whose floats would round to the same value are different here, which can only change how ties are broken.
- **Tie-breaking order.** The hash-randomised iteration order of Python sets and dictionaries is the parameter `order` of `Growth.TopAsesByPrefixGrowth`, and is not modelled further.
- Growth.TopAsesByPrefixGrowth: its own contract only bounds the length and says that every listed AS appears in two snapshots. The full top-ten characterisation (ascending order, distinctness, exact length, nothing better left out) is stated on the ranked list by `Growth.RankedTopIsTopTenAscending` and `Growth.TopShortHoldsAll`, under the assumption that `order` enumerates the origins exactly once.
- **Dead code.** Commented-out code (lines 108, 115, 211 and 228) and unused locals are not modelled.

## Findings

| source | as written | input that shows it | evidently intended | confidence | as-written member | corrected member |
|---|---|---|---|---|---|---|
| BGPM/bgpm.py:221-226 | The loop only checks that the `as-path` field is non-empty. It then takes `ass_path.split()[-1]`, which raises IndexError when the path is all whitespace. | A RIB element whose `as-path` is `" "` | Skip a path with no tokens, as task 1C does at lines 120-122 | not executed | `PathLength.MinPathsAsWritten` (shown by `PathLength.BlankPathRaises` and `PathLength.AsWrittenRaisesOnBlankPath`) | `PathLength.MinPaths` (shown by `PathLength.MinPathsSkipsBlankPath`; used by `PathLength.ShortestPathBySnapshot`) |
