# FNT timestamp alignment: index and window bookkeeping

This project models, in Dafny, the bookkeeping that turns the raw logs of a
behaviour session into per-trial timestamp sequences and into the two rising-edge
tables that are fed to the harp-to-PXIe clock fit:

- **Harp TTL log** (`harp_ttl.dfy`, module `HarpTtl`): the OutputSet and
  OutputClear register reads are filtered to the rows where `DO2` is set,
  tagged with state 1 and 0, merged and sorted by timestamp
  (`get_ttl_state_df`). From that log `get_dot_times_from_ttl` keeps the rows
  from the first one nearest a reference time `t0`, cuts the tail to a multiple
  of six rows with `iloc[:-n]`, and reads the dot onsets at rows 0, 6, 12, … and
  the dot offsets at rows 2, 8, 14, …. The model reproduces `iloc[:-0]`: a log
  whose length is already a multiple of six comes out empty.
- **Trial windows** (`windows.dfy`, module `Windows`): trial `i` owns the events
  with `start_i <= t <= start_{i+1}`. The last trial owns the events up to
  `start + 100`. Both ends are inclusive.
- **Pokes and sounds per trial** (`trial_pokes.dfy`, `trial_sounds.dfy`):
  `parse_trial_pokes` and `parse_trial_sounds` are methods with the source's
  loops. They are proved against recursive specification functions of each
  trial's events.
- **Port choice** (`port_choice.dfy`): `get_port_choice` is a loop over the
  trials. Each trial's row starts as `-1`/NaN. For a completed trial the row is
  then set from the first event in the response window.
- **Rising edges** (`open_ephys_sync.dfy`): `sync_harp_ttls` builds a `diff`
  column. The PXIe side starts with 1 and the harp side with 0. It keeps the rows
  where `diff == 1` and hands both onset tables to a `timestamp_mapping`. That
  prints both rise counts, warns when they differ, and then fits the harp onset
  times against the PXIe ones; on unequal counts the fit raises. An
  `OpenEphysSession` class holds the fields that `sync_harp_ttls` writes.
- **Square wave** (`square_wave.dfy`): `get_square_wave` doubles both columns,
  then drops the first timestamp and the last state.

Shared pieces: `wrappers.dfy` (Option/Result/Outcome), `slicing.dfy` (Python's
`s[start:]` and `s[:stop]`, including `-0`), `state_logs.dfy` (a `timestamp`/`state`
row and its columns).

Timestamps are `real`. NaN is `None` where the source can hold it: the
`ChoiceTimestamp` column, and the dot times of trials that got none. The readers
are not modelled. Their outputs are parameters: register rows, digital-input
rows, sound-card rows, the PXIe TTL table and the rows of `TTLs_harp.csv`.

Three behaviours of the code are worth stating up front:
- Row 0 gets a fixed `diff`: 1 on the PXIe side and 0 on the harp side,
  whatever its state. So the same sequence of states read on both sides always
  yields one PXIe onset more than harp onsets.
- An empty TTL table raises when row 0 of its `diff` column is written; the
  model returns `Fail`.
- Unequal onset counts are not truncated: the count check prints a warning, and
  the fit that follows raises because its two inputs differ in length. The
  model returns `Fail(OnsetCountMismatch(..))` and leaves `tm` unset.

## Model

| member | source | states |
|---|---|---|
| `Slicing.SliceUpTo` | timestamps/harp/utils.py:131 | `s[:stop]` is a prefix; a negative stop drops that many elements from the end; `-0` is read as 0, which gives the empty prefix |
| `Slicing.SliceFrom` | timestamps/harp/utils.py:127 | `s[start:]` completes the prefix: `s[:start] + r == s`, so entry k is `s[start + k]`; it is empty from the end on |
| `HarpTtl.AssertedIndicesFrom` | timestamps/harp/utils.py:94 | the mask `ttl == True`: strictly increasing positions, each a `DO2` row, and every `DO2` row included |
| `HarpTtl.AssertedTimes` | timestamps/harp/utils.py:93-94 | one timestamp per `DO2` row, in row order (entry k is the timestamp of the k-th selected row); a timestamp occurs iff some `DO2` row has it |
| `HarpTtl.SortByTime` | timestamps/harp/utils.py:110 | the result is sorted by timestamp and is a permutation of the input |
| `HarpTtl.TtlStateLog` | timestamps/harp/utils.py:90-113 | the merged log is sorted by timestamp; it is a permutation of the set times tagged 1 plus the clear times tagged 0; its length is the sum of the two counts |
| `HarpTtl.TtlStateLogRows` | timestamps/harp/utils.py:95-111 | a row is in the log iff it is (t, 1) for a set time t or (t, 0) for a clear time t; every state is 0 or 1 |
| `HarpTtl.NearestIndex` | timestamps/harp/utils.py:124 | `idxmin`: a valid index whose distance to `t0` is minimal; every earlier index is strictly farther |
| `HarpTtl.TrimToNearest` | timestamps/harp/utils.py:124-127 | the result is the suffix of the log that starts at its first row nearest `t0`; every dropped row is strictly farther from `t0` |
| `HarpTtl.CutToMultipleOfSix` | timestamps/harp/utils.py:130-131 | the result is a prefix whose length is a multiple of 6; when `len % 6 = n > 0` exactly n rows are dropped; when `len % 6 == 0` it is empty |
| `HarpTtl.EverySixth` | timestamps/harp/utils.py:134-135 | `s[start::6]` has `ceil((len - start) / 6)` entries, and entry k is `s[6k + start]` |
| `HarpTtl.DotColumns` | timestamps/harp/utils.py:133-136 | onset k is the timestamp of row 6k and offset k that of row 6k+2; on a multiple of six both columns have `len / 6` entries |
| `HarpTtl.DotTimesFromLog` | timestamps/harp/utils.py:116-148 | fails exactly on an empty log (`iloc[0]`); the startup state is returned iff requested and is the state of row 0 of the untrimmed log |
| `HarpTtl.DotTimesFromTtl` | timestamps/harp/utils.py:116-118 | on the register reads, it fails exactly when neither read has a `DO2` row |
| `HarpTtl.DotTimesFromLogSpec` | timestamps/harp/utils.py:118-136 | the dot columns are read from the tail-cut of the nearest-row suffix; both have `len(cut) / 6` entries; they are empty when the trimmed length is a multiple of six |
| `HarpTtl.CutToMultipleOfSixIntended` | timestamps/harp/utils.py:130-131 | the intended cut keeps a prefix that is a multiple of 6 and drops exactly `len % 6` rows |
| `HarpTtl.DotTimesFromLogIntended` | timestamps/harp/utils.py:116-148 | the same error and startup-state behaviour as the written version, with the intended cut |
| `HarpTtl.DotTimesIntendedKeepsEveryGroup` | timestamps/harp/utils.py:130-136 | with the intended cut, every complete six-row group after the trim gives an onset at row 6k and an offset at row 6k+2 |
| `HarpTtl.SixRowLogLosesItsDot` | timestamps/harp/utils.py:130-131 | on a log of six rows starting at `t0`, the written version returns no dot times; the intended version returns onset 0.0 and offset 2.0 |
| `Windows.Between` | timestamps/harp/utils.py:208 | the mask selection returns no more events than the stream holds, all inside `[lo, hi]`; it is empty iff no event of the stream lies in `[lo, hi]` |
| `Windows.BetweenMembers` | timestamps/harp/utils.py:208 | an event is selected iff it is in the stream and `lo <= t <= hi`; both ends are inclusive |
| `Windows.BetweenConcat` | timestamps/harp/utils.py:355 | selection distributes over concatenation, so the stream order is kept |
| `Windows.BetweenFirst` | timestamps/harp/utils.py:288-291 | the first selected event is the earliest event of the stream (by position) inside the window |
| `Windows.BetweenEmpty` | timestamps/harp/utils.py:288-290 | when no event lies in the window, nothing is selected |
| `Windows.BoundaryEventInTwoTrials` | timestamps/harp/utils.py:201-208 | for ascending starts, an event at `start_{i+1}` belongs to trial i and to trial i+1 |
| `Windows.EveryEventInSomeTrial` | timestamps/harp/utils.py:348-355 | for ascending starts, every event between the first start and the last start + 100 lies in some trial's window |
| `TrialPokes.Classify` | timestamps/harp/utils.py:217-229 | `DIPort0` gives a poke into port 0; otherwise `DIPort1` gives port 1; otherwise the event is a poke-out |
| `TrialPokes.PokeColumnsAligned` | timestamps/harp/utils.py:219-225 | `NosePokeIn` and `PortID` of a trial have the same length |
| `TrialPokes.PokesPartitionEvents` | timestamps/harp/utils.py:213-229 | every event of a trial is either a poke-in or a poke-out |
| `TrialPokes.PokeInEntryFromEvent` | timestamps/harp/utils.py:213-225 | entry k of `NosePokeIn`/`PortID` comes from one event of the trial, with its time and its classified port |
| `TrialPokes.PortIdsBinary` | timestamps/harp/utils.py:220-225 | every `PortID` entry is 0 or 1 |
| `TrialPokes.SplitTrialPokes` | timestamps/harp/utils.py:211-229 | the loop over one trial's events yields exactly its poke-in times, poke-out times and ports, in stream order |
| `TrialPokes.ParseTrialPokes` | timestamps/harp/utils.py:175-243 | one entry per trial start. Entry i holds the classified events of trial i's inclusive window. `NumPokes[i] == len(NosePokeIn[i]) == len(PortID[i])` |
| `TrialSounds.SoundColumnsAligned` | timestamps/harp/utils.py:364-367 | ON and ID have the same length, and no ID equals `OFF_index` |
| `TrialSounds.SoundsPartitionEvents` | timestamps/harp/utils.py:359-369 | every sound event of a trial is an onset or an offset |
| `TrialSounds.NoOffValueNoOffsets` | timestamps/harp/utils.py:364-369 | a trial without the off value has no offsets, and all its events are onsets |
| `TrialSounds.SplitTrialSounds` | timestamps/harp/utils.py:358-369 | the loop over one trial's events yields exactly its onset times, offset times and onset values |
| `TrialSounds.ParseTrialSounds` | timestamps/harp/utils.py:342-377 | one entry per trial start; entry i splits trial i's inclusive window into ON/OFF/ID; `len(ON) == len(ID)` |
| `TrialSounds.ParseTrialSoundsDefault` | timestamps/harp/utils.py:342 | with the default `OFF_index=18`, each trial's entry splits its window at value 18, and no ID is 18 |
| `PortChoice.Contains` | timestamps/harp/utils.py:267 | substring test: true iff the pattern occurs at some position |
| `PortChoice.ResponseWindow` | timestamps/harp/utils.py:278-285 | the window exists iff its bounds are not NaN: the dot offset, and the next dot onset (own onset + 100 for the last trial) |
| `PortChoice.ChoiceFor` | timestamps/harp/utils.py:275-296 | aborted trials and NaN windows keep `-1`/NaN; a completed trial with a window gets a choice iff some event lies in the window; a choice is port 0 or 1 with a timestamp |
| `PortChoice.GetPortChoice` | timestamps/harp/utils.py:247-305 | one row per trial, each equal to `ChoiceFor` |
| `PortChoice.ChoiceIsFirstEventInWindow` | timestamps/harp/utils.py:287-294 | a set choice comes from the earliest event inside the window; its port is 0 iff that event has `DIPort0` |
| `PortChoice.EmptyWindowKeepsPreset` | timestamps/harp/utils.py:290-296 | a window without events keeps `-1`/NaN |
| `PortChoice.ChoiceIsEarliestInWindow` | timestamps/harp/utils.py:288-294 | on a time-ordered stream, the choice timestamp is the least time inside the window |
| `PortChoice.FirstPokeIn` | timestamps/harp/utils.py:290-291 | the first poke-in of a list; every earlier event is a poke-out; `None` iff there is no poke-in |
| `PortChoice.IntendedChoiceFor` | timestamps/harp/utils.py:290-294 | the intended choice: the preset iff the trial is aborted or its window holds no poke-in; otherwise the first poke-in of the window (every earlier window event is a poke-out), with its port and time |
| `PortChoice.IntendedAgreesWhenWindowOpensWithPokeIn` | timestamps/harp/utils.py:290-294 | when the window's first event is a poke into a port, the written and the intended choice are equal |
| `PortChoice.PokeOutRecordedAsPortOne` | timestamps/harp/utils.py:291-294 | a window that starts with a poke-out followed by a port-0 poke is recorded as port 1 at the poke-out time; the intended result is port 0 at the poke-in time |
| `OpenEphysSync.FirstDifference` | timestamps/OpenEphys/open_ephys_utils.py:97-99 | fills a zeroed array with `first` at row 0 and `state[i] - state[i-1]` after it |
| `OpenEphysSync.OnsetIndicesFrom` | timestamps/OpenEphys/open_ephys_utils.py:112-113 | returns increasing positions with `diff == 1`, and every such position is included |
| `OpenEphysSync.OnsetIndicesExact` | timestamps/OpenEphys/open_ephys_utils.py:112-113 | a row is selected iff its `diff` is 1 |
| `OpenEphysSync.OnsetsAreOrderedRows` | timestamps/OpenEphys/open_ephys_utils.py:112-113 | the onsets are the selected rows in their original order; a time-sorted table gives time-sorted onsets |
| `OpenEphysSync.PxieRowZeroIsOnset` | timestamps/OpenEphys/open_ephys_utils.py:97-98 | PXIe row 0 is always the first onset, even at state 0 |
| `OpenEphysSync.HarpRowZeroNeverOnset` | timestamps/OpenEphys/open_ephys_utils.py:107-108 | harp row 0 is never an onset, even at state 1 |
| `OpenEphysSync.OnsetIsRisingEdge` | timestamps/OpenEphys/open_ephys_utils.py:109-113 | for 0/1 states, row i > 0 is an onset iff `state[i] = 1` and `state[i-1] = 0` |
| `OpenEphysSync.NewTimestampMapping` | timestamps/OpenEphys/open_ephys_utils.py:128-138 | succeeds iff the two onset tables have equal length, pairing them whole; otherwise fails with both rise counts |
| `OpenEphysSync.OnsetIndicesAgree` | timestamps/OpenEphys/open_ephys_utils.py:99-113 | two `diff` columns equal from a row on select the same onset rows from there |
| `OpenEphysSync.PxieCountsOneMoreOnset` | timestamps/OpenEphys/open_ephys_utils.py:97-113 | on the same states, the PXIe convention finds exactly one onset more than the harp convention |
| `OpenEphysSync.SameStatesFailCountCheck` | timestamps/OpenEphys/open_ephys_utils.py:106-138 | harp and PXIe tables with the same sequence of states always fail the count check, with one PXIe rise more |
| `OpenEphysSync.OpenEphysSession.constructor` | timestamps/OpenEphys/open_ephys_utils.py:64-67 | a session holding its PXIe TTL table, before any sync |
| `OpenEphysSync.OpenEphysSession.SyncHarpTtls` | timestamps/OpenEphys/open_ephys_utils.py:94-115 | an empty PXIe table fails with nothing written; an empty harp table fails after the PXIe `diff` column and the harp table were stored; otherwise it writes both `diff` columns, then sets `tm` from the two onset tables when their counts agree, and fails with both counts, `tm` unchanged, when they differ |
| `SquareWave.Doubled` | utils/plot_utils.py:11-12 | `.repeat(2)` has twice the length, and positions 2k and 2k+1 hold element k |
| `SquareWave.DoubledAt` | utils/plot_utils.py:11 | position j of the doubled list holds element j / 2 |
| `SquareWave.SquareWaveOf` | utils/plot_utils.py:8-15 | both columns have length 2n-1, or are empty when n = 0; `ts[0]` comes first; `ts[k]` is at 2k-1 and 2k; `s[k]` is at 2k and 2k+1; `s[n-1]` ends the state column |
| `SquareWave.DoubledTimes` | utils/plot_utils.py:11 | after dropping its first entry, the doubled timestamp column has `ts[k]` at 2k-1 and 2k |
| `SquareWave.DoubledLevels` | utils/plot_utils.py:12 | after dropping its last entry, the doubled state column has `s[k]` at 2k and 2k+1, and `s[n-1]` at 2n-2 |
| `SquareWave.StepAtEachChange` | utils/plot_utils.py:11-12 | each change time `ts[k]` appears once with the old state `s[k-1]` and once with the new state `s[k]` |
| `SquareWave.SortedLogSortedWave` | utils/plot_utils.py:11 | non-decreasing input timestamps give non-decreasing wave timestamps |

## Left out

- The least-squares clock fit (`Polynomial.fit`, `get_pxie_timestamp`) and the
  residuals of `plot_residuals` (timestamps/OpenEphys/open_ephys_utils.py:137-164).
  They are floating-point numerics inside numpy. `NewTimestampMapping` keeps
  what precedes the fit.
- The device and library readers: `get_all_pokes` (it drops the `DI3` and
  `DIPort2` columns and keeps every row), `get_all_sounds`, `get_photodiode_data`,
  `read_TTLs`, `sync_data`, `harp.create_reader` and `open_ephys.analysis.Session`.
  Their tables are parameters. The PXIe rows carry `global_timestamp` as their
  timestamp.
- Directory walks (`get_experimental_data`, `get_session_path`,
  `get_record_node_path`), CSV and pickle reads and writes, `mkdir`, and all
  plotting. These are I/O.
- `get_trial_start_times`. It is marked deprecated and refers to undefined names.
- The orchestration scripts (main.py, the `get_harp_timestamps_df.py` files,
  `save_harp_data_streams.py`, setup.py). They hard-code one session.
- Printed messages and the `Warning(...)` object built for an empty response
  window. Nothing is printed, and that object is never raised. The two rise
  counts the count check prints are carried by `OnsetCountMismatch`.
- `OpenEphysSync.NewTimestampMapping`: equal onset counts are taken to give a
  mapping. A fit that numpy cannot make on equal-length inputs (a single onset
  pair, or all harp onsets at one time) is floating-point numerics and not
  modelled.
- NaN inside event times or TTL timestamps, and `idxmin`'s skipping of NaN.
  Timestamps are reals. NaN is modelled only in dot times and choice timestamps.
- pandas index labels. `trial_start_times[i + 1]` and `trials_df.loc[trial + 1]`
  are read as positions. This holds for the default index the callers build.
- Unsigned state dtypes, where `np.diff` would wrap around. States are `int`.
- `HarpTtl.SortByTime`: pandas' default sort is not stable. The model fixes one
  order among rows with equal timestamps. Its contract promises only what pandas
  promises: sorted, and a permutation.

## Findings

| source | as written | input that shows it | evidently intended | confidence | as-written member | corrected member |
|---|---|---|---|---|---|---|
| timestamps/harp/utils.py:130-131 | `n = len % 6; iloc[:-n]` with n = 0 is `iloc[:0]` and drops every row | a trimmed log of six rows (one complete pulse group) gives no dot onset and no dot offset | keep the log unchanged when its length is already a multiple of six | high, not executed | `HarpTtl.SixRowLogLosesItsDot` | `HarpTtl.DotTimesIntendedKeepsEveryGroup` |
| timestamps/harp/utils.py:290-294 | the first row of the digital-input table inside the response window sets the choice, and a row without `DIPort0` counts as port 1 | a completed trial whose window starts with a poke-out (both flags false), then a poke into port 0, is recorded as port 1 at the poke-out time. A `DI3` row behaves the same way, because dropping that column keeps its rows | the first poke into a port, as the docstring says: port 0 at the poke-in time | medium, not executed | `PortChoice.PokeOutRecordedAsPortOne` | `PortChoice.IntendedChoiceFor` |
