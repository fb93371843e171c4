# taskbar-monitor, modelled in Dafny

taskbar-monitor is a Windows taskbar band that draws small live graphs of CPU load,
memory use, disk throughput and network throughput. Each polling tick asks every
counter to sample the operating system. A counter keeps a summary series and one or
more named series, each with a bounded history, a current value, a display text and a
scaling maximum. The `SystemWatcherControl` paints one panel per enabled counter. A
panel holds a graph (SINGLE, MIRRORED or STACKED), the counter's title and its value
texts, coloured by a `GraphTheme`. The control sizes itself to the taskbar. The
settings form (`OptionForm`) edits a working copy of the `Options` under a few
consistency rules. The installer registers an uninstall command, and before installing
it removes pending file renames left by an earlier uninstall.

The model is functional throughout:

- Every C# object becomes an immutable datatype.
- Every mutating method becomes a function from the old state to the new one.
- An exception that escapes part-way is an `Outcome` (the state with the writes already
  made, plus the fault) or a `Result` error.
- `float` values are exact reals.
- `Convert.ToInt32`, `Convert.ToInt64` and `Math.Round` round half to even
  (`Numeric.RoundHalfEven`), with their overflow cases.
- C#'s truncating `/` on `int` is spelled out.
- A `Dictionary<string, CounterOptions>` is an insertion-ordered list of entries with
  distinct keys. Entries are only ever added, so the C# dictionary enumerates in
  insertion order, and the paint order and the form's `First()` depend on that order.
- Operating-system readings, font metrics, the mouse state and the taskbar geometry are
  parameters: `Counters.Readings`, `Paint.Surface`, `CounterNetwork.Probe`, and the
  taskbar width and height.

Modules, in dependency order:

| Module | Contents |
|---|---|
| `Wrappers` | `Option`, `Result`, `Outcome`, fault kinds |
| `Numeric` | .NET conversions |
| `Strings` | ordinal `Contains`, `ToLower`, `OrderBy` |
| `CounterInfo` | one series, with the shared append/evict step and dynamic maximum |
| `CounterCpu`, `CounterMemory`, `CounterDisk`, `CounterNetwork` | the four counters |
| `DualSeries` | the update the disk and network counters share |
| `Counters` | `BaseCounter` as a sum type |
| `Options` | settings |
| `GraphTheme` | colours, gradient and theme tests |
| `Graphs`, `Stacked` | graph geometry |
| `Paint` | the paint handler |
| `Control` | theme choice, counter creation, polling tick and control size |
| `OptionForm` | settings form rules |
| `Installer` | installer logic |

## Behaviour of the code worth knowing

The model follows the code in each of these places, where it does something a reader might not expect:

- A SINGLE graph draws the first series (`infos[0]`), not the summary. A counter with no
  series, such as a CPU counter on a machine reporting no cores, throws there
  (`Paint.PanelGraph`).
- The disk and network counters give their two series a common scale when `SeparateScales`
  is **false** (`DualSeries.Sample`). The form enables that box only for MIRRORED graphs.
  The flag still changes the scale of SINGLE and STACKED graphs.
- The "shadow on hover" flags decide whether a HOVER text is drawn at all while the mouse
  is away. When such a text is drawn away from the mouse, it is faint and has no shadow
  (`Paint.DrawText`).
- When the network counter fails to sample, it reads the interface list again and
  *appends* it. A counter that keeps failing is never removed, so the update never
  recovers while it is there (`CounterNetwork.DeadCounterNeverHeals`).
- The bar of an inverted (lower) mirrored band has its top at `maxH` and ignores the band's
  `y` (`Graphs.DrawGraph`).
- `GraphTheme.IsCustom` compares the title font, a string, with a theme object. That
  comparison is never equal, so the test never answers false. The built-in themes count as
  custom too (`GraphTheme.IsCustomNeverFalse`). As a result, upgrading an old
  configuration always selects the CUSTOM theme (`Options.UpgradeAlwaysPicksCustom`).
- The form disables the summary-position list when the summary box is clear. A CPU counter
  with more than two series still places its summary text at that position. The settings
  rule lemma therefore covers only counters with at most two series
  (`OptionForm.SummaryEditableOnlyWhenDrawn`).
- The message for a missing pending-rename value is the literal text
  `Key: {keyName} is not a string[] or does not exist.`, because the string is not
  interpolated (`Installer.CleanUpPendingDeleteOperations`).
- Initialising the CPU counter twice lists every core twice. The next update then throws on
  the first core, after the summary has been written (`CounterCpu.InitializeTwiceBreaksUpdate`).

## Model

| member | source | states |
|---|---|---|
| Numeric.RoundHalfEven | TaskbarMonitorCore/SystemWatcherControl.cs:445-449 | the result is within one half of the value, and a tie goes to the even neighbour |
| Numeric.ToInt32 | TaskbarMonitorCore/SystemWatcherControl.cs:443-449 | `Convert.ToInt32` of a float succeeds exactly when the rounded value fits in 32 bits, yields that rounded value, and otherwise raises an overflow |
| Numeric.ToInt64 | TaskbarMonitorCore/Counters/CounterDisk.cs:39 | `Convert.ToInt64` succeeds exactly when the rounded value fits in 64 bits, otherwise overflow |
| Numeric.ClampToMaxInt32 | TaskbarMonitorCore/SystemWatcherControl.cs:444 | the saturation leaves a value unchanged unless it exceeds `int.MaxValue`, which it then becomes |
| Numeric.ClampedConversionSucceeds | TaskbarMonitorCore/SystemWatcherControl.cs:443-449 | in the exact-real model, a saturated value not below the 32-bit range always converts (binary32 differs: see Left out) |
| Numeric.HalfTowardZero | TaskbarMonitorCore/SystemWatcherControl.cs:314 | `maximumHeight / 2` truncates towards zero: twice the result is within one of the input, on the input's side of zero |
| Numeric.FloorDiv | TaskbarMonitorCore/SystemWatcherControl.cs:246 | `Math.Floor(a / b)` is the largest integer whose multiple of `b` does not pass `a` |
| Numeric.CeilDiv | TaskbarMonitorCore/SystemWatcherControl.cs:248 | `Math.Ceiling(a / b)` is the smallest integer whose multiple of `b` reaches `a` |
| Strings.ToLower | TaskbarMonitorInstallerCore/Program.cs:29 | lower-casing keeps the length and maps every character through the letter mapping |
| Strings.Sort | TaskbarMonitorCore/Counters/CounterCPU.cs:34 | `OrderBy(x => x)` returns a permutation of its input |
| Strings.SortSorted | TaskbarMonitorCore/Counters/CounterCPU.cs:34 | the ordered instance names are in ascending ordinal order |
| Strings.SortMembers | TaskbarMonitorCore/Counters/CounterCPU.cs:34 | ordering keeps exactly the same names |
| Strings.SortDistinct | TaskbarMonitorCore/Counters/CounterCPU.cs:34 | ordering distinct names gives distinct names |
| CounterInfo.Fresh | TaskbarMonitorCore/Counters/CounterCPU.cs:38-43 | a new series has its name and maximum, an empty history and no display text |
| CounterInfo.Push | TaskbarMonitorCore/Counters/CounterCPU.cs:58-59 | appending a sample drops the single oldest one exactly when the history would exceed `HistorySize`, so a history within the bound stays within it |
| CounterInfo.FeedKeepsNewest | TaskbarMonitorCore/Counters/CounterCPU.cs:58-59 | from a history within the bound, any run of samples leaves exactly the newest `HistorySize` values, oldest first |
| CounterInfo.MaxOf | TaskbarMonitorCore/Counters/CounterDisk.cs:39 | `History.Max()` is an element of the history and no element exceeds it |
| CounterInfo.DynamicMaximum | TaskbarMonitorCore/Counters/CounterDisk.cs:39 | the new maximum is one more than the integer nearest the largest sample, a tie going to the even integer; so it lies strictly above every sample and at most 1.5 above the largest |
| CounterInfo.Record | TaskbarMonitorCore/Counters/CounterDisk.cs:36-38 | the shared write sets the current value and pushes it, and leaves name, maximum and text alone |
| CounterInfo.AddDynamic | TaskbarMonitorCore/Counters/CounterDisk.cs:34-42 | `addValue` always records the sample. It throws for an empty history (invalid operation) or an unconvertible maximum (overflow), keeping the old maximum and text. When it completes, the text is the formatted value and the new maximum is the largest sample rounded half to even, plus one, so every sample lies below it |
| CounterInfo.AddDynamicSucceeds | TaskbarMonitorCore/Counters/CounterDisk.cs:34-42 | with a positive `HistorySize` and samples within the 64-bit range, `addValue` completes |
| CounterInfo.SingleIndex | TaskbarMonitorCore/Counters/CounterDisk.cs:50 | `Where(name).Single()` finds a series exactly when exactly one series has that name, and throws an invalid operation otherwise |
| CounterInfo.SingleIndexByNames | TaskbarMonitorCore/Counters/CounterDisk.cs:56-57 | the lookup depends only on the names, so it finds the same series after the values change |
| CounterInfo.ScenarioFourSamples | TaskbarMonitorCore/Counters/CounterDisk.cs:36-39 | with `HistorySize` 3, samples 10, 20, 30, 40 leave the history 20, 30, 40 and the maximum 41 |
| CounterCpu.New | TaskbarMonitorCore/Counters/CounterCPU.cs:13-25 | the constructor gives a summary scaled to 100 and no core series |
| CounterCpu.Cores | TaskbarMonitorCore/Counters/CounterCPU.cs:34-36 | a name is kept as a core exactly when it is an instance other than the `_total` aggregate |
| CounterCpu.CoresSorted | TaskbarMonitorCore/Counters/CounterCPU.cs:34-36 | skipping the aggregate keeps the order |
| CounterCpu.CoresDistinct | TaskbarMonitorCore/Counters/CounterCPU.cs:34-36 | skipping the aggregate keeps the names distinct |
| CounterCpu.FreshCores | TaskbarMonitorCore/Counters/CounterCPU.cs:38-45 | one new series per core, named after it and scaled to 100 |
| CounterCpu.Initialize | TaskbarMonitorCore/Counters/CounterCPU.cs:27-50 | `Initialize` only appends: the summary and the existing series and cores stay, and as many series as cores are added |
| CounterCpu.InitializeAppends | TaskbarMonitorCore/Counters/CounterCPU.cs:27-50 | the appended cores are the non-aggregate instances, sorted, each with a new series scaled to 100; distinct instances give distinct cores |
| CounterCpu.SetCore | TaskbarMonitorCore/Counters/CounterCPU.cs:64-70 | a core series takes its sample and the summary's text, and keeps its name and maximum |
| CounterCpu.UpdateCores | TaskbarMonitorCore/Counters/CounterCPU.cs:62-71 | the core loop keeps every series' name and maximum and can only fail with an invalid operation |
| CounterCpu.Update | TaskbarMonitorCore/Counters/CounterCPU.cs:51-74 | the summary takes the total load as a whole percentage before any core lookup can throw; the cores list and the series' names and maxima are kept |
| CounterCpu.UpdateCoresComplete | TaskbarMonitorCore/Counters/CounterCPU.cs:62-71 | with one series per core and no core twice, the loop completes, each core's series takes that core's sample, and the other series are untouched |
| CounterCpu.FreshNames | TaskbarMonitorCore/Counters/CounterCPU.cs:38-46 | after `Initialize` on a new counter, the series are named after the sampled cores, one each |
| CounterCpu.UpdateAfterInitialize | TaskbarMonitorCore/Counters/CounterCPU.cs:27-74 | on a counter initialised once from distinct instances, every update completes and every core series takes its own sample and the summary's text |
| CounterCpu.InitializeTwiceBreaksUpdate | TaskbarMonitorCore/Counters/CounterCPU.cs:27-71 | initialising twice makes the next update throw an invalid operation, after the summary has taken the total |
| CounterMemory.InstalledMb | TaskbarMonitorCore/Counters/CounterMemory.cs:29 | `totalMemory / 1024` is the whole number of megabytes installed |
| CounterMemory.Initialize | TaskbarMonitorCore/Counters/CounterMemory.cs:24-35 | a new summary and a new series "U", both scaled to the installed megabytes |
| CounterMemory.Used | TaskbarMonitorCore/Counters/CounterMemory.cs:38 | used plus available memory is the installed memory |
| CounterMemory.Update | TaskbarMonitorCore/Counters/CounterMemory.cs:36-60 | the summary takes the used memory, shown in gigabytes, with a fixed maximum; the update completes exactly when exactly one series is named "U", otherwise it throws and leaves the series alone |
| CounterMemory.UpdateKeepsSeriesAligned | TaskbarMonitorCore/Counters/CounterMemory.cs:36-60 | while "U" is the only series and matches the summary's history, each update completes and "U" keeps the summary's value, history and text |
| CounterMemory.InitializeAligned | TaskbarMonitorCore/Counters/CounterMemory.cs:29-33 | the initial state meets the alignment the update preserves |
| CounterDisk.DiskFormat | TaskbarMonitorCore/Counters/CounterDisk.cs:41 | the displayed amount is the rate in mebibytes per second |
| CounterDisk.Initialize | TaskbarMonitorCore/Counters/CounterDisk.cs:20-31 | an empty summary with a maximum of 1, followed by empty series "R" and "W" in that order |
| CounterDisk.Update | TaskbarMonitorCore/Counters/CounterDisk.cs:32-63 | the summary always records read plus write; a completed update needs the "DISK" options and sets the summary's maximum to its largest sample rounded half to even, plus one |
| CounterDisk.FirstUpdate | TaskbarMonitorCore/Counters/CounterDisk.cs:20-63 | the first update after `Initialize` completes, "R" holds the read rate and "W" the write rate within their scale, and they share it unless separate scales are set |
| DualSeries.Fresh3 | TaskbarMonitorCore/Counters/CounterDisk.cs:24-28 | three empty series, each with a maximum of 1 |
| DualSeries.AddNamed | TaskbarMonitorCore/Counters/CounterDisk.cs:50-51 | `addValue` on the single series of that name changes only that series; without exactly one such series it throws and changes nothing |
| DualSeries.Larger | TaskbarMonitorCore/Counters/CounterDisk.cs:59 | the common maximum is one of the two and at least both |
| DualSeries.ShareScale | TaskbarMonitorCore/Counters/CounterDisk.cs:54-61 | both named series take the larger maximum and keep every other field, including their text; no other series changes; it fails exactly when a name is not found once |
| DualSeries.Sample | TaskbarMonitorCore/Counters/CounterDisk.cs:47-62 | the summary always records the total; a completed update needs the counter's options, formats the summary and sets its maximum to its largest sample rounded half to even, plus one |
| DualSeries.SampleComplete | TaskbarMonitorCore/Counters/CounterDisk.cs:47-62 | after a completed update each named series holds its own sample within its scale; with separate scales each has its own dynamic maximum, and otherwise both take the larger of the two dynamic maxima |
| DualSeries.NamedPair | TaskbarMonitorCore/Counters/CounterDisk.cs:49-51 | two completed named samples each update their own series, with its dynamic maximum, and keep every name |
| DualSeries.SampleSteps | TaskbarMonitorCore/Counters/CounterDisk.cs:47-62 | proof step, unfolding the body: a completed update passed every step, and its named series are those of the second sample or of the shared scale |
| DualSeries.SampleSucceeds | TaskbarMonitorCore/Counters/CounterDisk.cs:34-62 | with a positive `HistorySize`, values in range, both names present once and the options present, the update completes |
| DualSeries.AddNamedSucceeds | TaskbarMonitorCore/Counters/CounterDisk.cs:50 | sampling a series present once, with values in range, completes |
| DualSeries.FirstSample | TaskbarMonitorCore/Counters/CounterDisk.cs:20-62 | from three empty series the first update completes with one sample in each series, all within scale, sharing a scale unless separate scales are set |
| CounterNetwork.New | TaskbarMonitorCore/Counters/CounterNetwork.cs:14-31 | empty summary, "D" and "U" with maximum 1, and no interface counters |
| CounterNetwork.ReadCounters | TaskbarMonitorCore/Counters/CounterNetwork.cs:38-48 | one sent and one received counter per interface are appended; nothing already there is removed |
| CounterNetwork.Initialize | TaskbarMonitorCore/Counters/CounterNetwork.cs:33-36 | the counter lists are exactly the interfaces found |
| CounterNetwork.SumProbe | TaskbarMonitorCore/Counters/CounterNetwork.cs:77-85 | the sum fails exactly when some counter of the list throws |
| CounterNetwork.NetFormat | TaskbarMonitorCore/Counters/CounterNetwork.cs:60-63 | above one mebibyte per second the rate shows in MB/s, otherwise in KB/s |
| CounterNetwork.Attempt | TaskbarMonitorCore/Counters/CounterNetwork.cs:72-103 | any throwing counter fails the attempt before a series is written; the counter lists and series names are kept |
| CounterNetwork.Update | TaskbarMonitorCore/Counters/CounterNetwork.cs:51-112 | no exception escapes; the series names are kept and the counter lists only grow. A first attempt that succeeds is the result. After a failed first attempt the interface list is appended and a second attempt runs from the first one's writes; if it succeeds it is the result, otherwise the list is appended once more |
| CounterNetwork.AttemptSamples | TaskbarMonitorCore/Counters/CounterNetwork.cs:72-103 | an attempt whose counters all answer is the locked update on the two sums |
| CounterNetwork.RetryRecovers | TaskbarMonitorCore/Counters/CounterNetwork.cs:66-110 | when only the first attempt's sampling fails, the series take the second attempt's sums, and the lists grow by one re-read (two if the locked update throws) |
| CounterNetwork.BothSamplingsFail | TaskbarMonitorCore/Counters/CounterNetwork.cs:66-110 | when the sampling of both attempts fails, whichever counter throws, no series changes and the lists grow by both re-reads |
| CounterNetwork.DeadCounterNeverHeals | TaskbarMonitorCore/Counters/CounterNetwork.cs:66-111 | a counter that throws on both attempts leaves every series unchanged and stays in place while the lists grow by both rediscoveries |
| CounterNetwork.FirstUpdateSucceeds | TaskbarMonitorCore/Counters/CounterNetwork.cs:33-112 | when every counter answers, the first update writes received to "D", sent to "U" and their sum to the summary, and keeps the lists |
| Counters.Name | TaskbarMonitorCore/Counters/ICounter.cs:32 | each counter kind reports its own key, one of CPU, MEM, DISK and NET |
| Counters.GraphType | TaskbarMonitorCore/Counters/CounterDisk.cs:70-73 | memory always draws SINGLE; the others read the graph type of their own options entry and throw when it is missing |
| Counters.Update | TaskbarMonitorCore/Counters/ICounter.cs:36 | an update keeps the counter's kind and number of series, and the network counter's never throws |
| Options.NewCounterOptions | TaskbarMonitorCore/Options.cs:153-163 | the defaults of a new counter entry |
| Options.Lookup | TaskbarMonitorCore/Options.cs:44 | the indexer finds an entry exactly when the key is present, and returns that entry's options; otherwise key not found |
| Options.Put | TaskbarMonitorCore/Options.cs:39-44 | storing overwrites the entry of an existing key in place and appends a new key at the end; other entries are unchanged |
| Options.PutKeepsKeysUnique | TaskbarMonitorCore/Options.cs:39-44 | storing keeps keys distinct and adds no key but the stored one |
| Options.WithKeySpec | TaskbarMonitorCore/Options.cs:39-42 | adding a missing key keeps all existing entries in place and keys distinct |
| Options.CopyEntrySpec | TaskbarMonitorCore/Options.cs:39-55 | one copy step keeps the target's keys in place and distinct and adds the entry's key |
| Options.CopyEntryLookup | TaskbarMonitorCore/Options.cs:44-54 | after one copy step the entry's key holds the source's options and every other key is unchanged |
| Options.CopyTo | TaskbarMonitorCore/Options.cs:31-56 | the copy takes history size, poll time and theme choice from the source and keeps the target's version |
| Options.CopyEntriesKeys | TaskbarMonitorCore/Options.cs:37-55 | the merge keeps the target's keys in place and ends with exactly the keys of both, distinct |
| Options.CopyEntriesValues | TaskbarMonitorCore/Options.cs:37-55 | after the merge every source key holds the source's options and every other key keeps the target's |
| Options.DefaultOptions | TaskbarMonitorCore/Options.cs:57-72 | the defaults are CPU, MEM, DISK, NET in that order with fresh SINGLE options, history 50, poll time 3, dark theme |
| Options.DefaultKeysUnique | TaskbarMonitorCore/Options.cs:61-67 | the default keys are distinct |
| Options.Upgrade | TaskbarMonitorCore/Options.cs:115-136 | versions 0 and 1 move to version 2 with a theme choice from `IsCustom` and report a change; other versions are untouched; it fails only when `IsCustom` raises |
| Options.UpgradeAlwaysPicksCustom | TaskbarMonitorCore/Options.cs:115-130 | an old configuration with a titled theme always upgrades to CUSTOM |
| GraphTheme.NewTheme | TaskbarMonitorCore/GraphTheme.cs:12-29 | a new theme is at the latest version with Arial fonts and no stacked colours |
| GraphTheme.DefaultDarkTheme | TaskbarMonitorCore/GraphTheme.cs:96-117 | the dark theme is at the latest version with two stacked colours |
| GraphTheme.DefaultLightTheme | TaskbarMonitorCore/GraphTheme.cs:118-139 | the light theme is at the latest version with two stacked colours |
| GraphTheme.InterpolationBetween | TaskbarMonitorCore/GraphTheme.cs:49-68 | each exact intermediate point lies between the two endpoint channels |
| GraphTheme.StepChannel | TaskbarMonitorCore/GraphTheme.cs:66-69 | a rounded intermediate channel stays between the endpoint channels, so it is a valid channel |
| GraphTheme.GetColorGradient | TaskbarMonitorCore/GraphTheme.cs:37-73 | fewer than two colours is an argument error; otherwise `n` colours from `from` to `to` with the rounded intermediate steps |
| GraphTheme.GradientChannelsBetween | TaskbarMonitorCore/GraphTheme.cs:37-73 | every channel of every gradient colour lies between the endpoint channels |
| GraphTheme.GradientReversed | TaskbarMonitorCore/GraphTheme.cs:37-73 | the gradient between swapped endpoints is the gradient read backwards |
| GraphTheme.GetNthColor | TaskbarMonitorCore/GraphTheme.cs:31-35 | colour `n` of the gradient between the first and last stacked colour; no stacked colours, fewer than two colours, or an index out of range each fail |
| GraphTheme.NthOfTwoIsEndpoint | TaskbarMonitorCore/GraphTheme.cs:31-35 | with two colours, colour 0 is the first stacked colour and colour 1 the last |
| GraphTheme.CopyTo | TaskbarMonitorCore/GraphTheme.cs:75-95 | the copy takes every property but the version from the source |
| GraphTheme.CopyToOverwrites | TaskbarMonitorCore/GraphTheme.cs:75-95 | the last copy wins and the target keeps only its version |
| GraphTheme.Upgrade | TaskbarMonitorCore/GraphTheme.cs:175-190 | only a version-0 theme changes, to the latest version, and reports it |
| GraphTheme.UpgradeIdempotent | TaskbarMonitorCore/GraphTheme.cs:175-190 | a second upgrade changes nothing |
| GraphTheme.IsCustom | TaskbarMonitorCore/GraphTheme.cs:192-223 | the only error is a null reference |
| GraphTheme.IsCustomNeverFalse | TaskbarMonitorCore/GraphTheme.cs:192-223 | the test never answers false and answers true for any theme with a title font; it raises exactly for a fontless theme whose five colours each equal a built-in theme's |
| GraphTheme.BuiltInThemesCountAsCustom | TaskbarMonitorCore/GraphTheme.cs:192-223 | both built-in themes count as custom |
| Graphs.BarSpan | TaskbarMonitorCore/SystemWatcherControl.cs:443-449 | the bar's top and height are the saturated, rounded `maxH - scaled` and `scaled`; a zero maximum overflows |
| Graphs.BarRestsOnBaseline | TaskbarMonitorCore/SystemWatcherControl.cs:443-456 | without saturation, the bar's top plus height is within one pixel of `maxH` |
| Graphs.SamplePoints | TaskbarMonitorCore/SystemWatcherControl.cs:459-475 | one point per sample at consecutive x, at `maxH - level + y` (or `level + y` inverted); it fails exactly when some level does not convert |
| Graphs.DrawGraph | TaskbarMonitorCore/SystemWatcherControl.cs:441-491 | a bar at `x + HistorySize`, topped at `maxH` when inverted, and a polygon of the samples closed along the baseline in gradient colour 1 when inverted and 0 otherwise; a zero maximum overflows |
| Graphs.PolygonInsideBand | TaskbarMonitorCore/SystemWatcherControl.cs:459-485 | samples between 0 and the maximum keep every polygon point inside the band |
| Graphs.LevelWithinBand | TaskbarMonitorCore/SystemWatcherControl.cs:465-467 | a sample between 0 and the maximum scales to a level between 0 and `maxH` |
| Graphs.MirroredFrom | TaskbarMonitorCore/SystemWatcherControl.cs:311-315 | the band loop draws two shapes per remaining series |
| Graphs.Mirrored | TaskbarMonitorCore/SystemWatcherControl.cs:307-318 | the MIRRORED layout draws two shapes per series |
| Graphs.MirroredBandsMeet | TaskbarMonitorCore/SystemWatcherControl.cs:311-315 | with two series, both band polygons close on the middle line of the graph |
| Graphs.InvertOrderSwapsBands | TaskbarMonitorCore/SystemWatcherControl.cs:313 | InvertOrder swaps the series of the two bands |
| Stacked.Reversed | TaskbarMonitorCore/SystemWatcherControl.cs:500 | the series are visited back to front |
| Stacked.Layer | TaskbarMonitorCore/SystemWatcherControl.cs:503-509 | a layer adds each sample to the one below at the same index; it fails exactly when its history is longer than a non-empty layer below |
| Stacked.Accumulate | TaskbarMonitorCore/SystemWatcherControl.cs:499-512 | one layer per series, each as long as its history |
| Stacked.AccumulateSucceeds | TaskbarMonitorCore/SystemWatcherControl.cs:499-512 | histories of one common length always accumulate |
| Stacked.AccumulateFirst | TaskbarMonitorCore/SystemWatcherControl.cs:499-512 | a completed accumulation is the first layer followed by the accumulation on it |
| Stacked.AccumulateSums | TaskbarMonitorCore/SystemWatcherControl.cs:499-512 | layer `k` holds, at every index, the sum of the last `k + 1` series |
| Stacked.SumMaximaCovers | TaskbarMonitorCore/SystemWatcherControl.cs:495-502 | with non-negative maxima, the shared normaliser is at least each series' maximum |
| Stacked.SumMaxima | TaskbarMonitorCore/SystemWatcherControl.cs:495-502 | `absMax`, summed back to front as the loop over the reversed series does, is the sum of every maximum |
| Stacked.LayerSamples | TaskbarMonitorCore/SystemWatcherControl.cs:538-546 | every layer sample is saturated, rounded and placed at `maxH - level + y` |
| Stacked.LayerPoints | TaskbarMonitorCore/SystemWatcherControl.cs:535-548 | the point array has `historySize + 2` entries: the samples, the two baseline points, then unwritten points at the origin |
| Stacked.LayerShapes | TaskbarMonitorCore/SystemWatcherControl.cs:520-556 | a layer is its bar, sized by its newest sum, and its polygon in gradient colour `w`; a zero normaliser overflows |
| Stacked.DrawLayers | TaskbarMonitorCore/SystemWatcherControl.cs:520-556 | the layer loop completes only when every layer draws |
| Stacked.DrawLayersInOrder | TaskbarMonitorCore/SystemWatcherControl.cs:517-556 | layer `v` becomes shapes `2v` and `2v + 1` |
| Stacked.PaintOrder | TaskbarMonitorCore/SystemWatcherControl.cs:518-519 | the accumulated layers are painted in reverse, so the full total first, unless inverted, when they keep their order |
| Stacked.DrawStacked | TaskbarMonitorCore/SystemWatcherControl.cs:493-557 | one series, or fewer than two stacked colours, fails; no series gives nothing; a completed non-empty drawing had two colours and a non-zero sum of maxima |
| Stacked.DrawStackedSteps | TaskbarMonitorCore/SystemWatcherControl.cs:493-557 | proof step, unfolding the body: a completed drawing is the layer loop over the accumulated layers in paint order, with one gradient colour per series |
| Stacked.StackedColours | TaskbarMonitorCore/SystemWatcherControl.cs:516-556 | two shapes per series, and layer `w` is a bar and a polygon filled with gradient colour `w` |
| Stacked.LayersColoured | TaskbarMonitorCore/SystemWatcherControl.cs:517-556 | the completed loop gives each layer its bar and its polygon in colour `w` |
| Stacked.FirstPaintedLayer | TaskbarMonitorCore/SystemWatcherControl.cs:499-520 | the first layer painted is the sum of all series, or only the last series when inverted |
| Paint.MaximumHeight | TaskbarMonitorCore/SystemWatcherControl.cs:270-272 | the graph height is the taskbar height when that is positive, and 30 otherwise |
| Paint.SlotsOrdered | TaskbarMonitorCore/SystemWatcherControl.cs:330-332 | the TOP, MIDDLE and BOTTOM text slots lie top to bottom, the bottom one ending one pixel under the graph |
| Paint.SlotTop | TaskbarMonitorCore/SystemWatcherControl.cs:328-332 | the TOP slot is the panel's top, the MIDDLE slot centres a title-high text one pixel below the graph's middle, and the BOTTOM slot ends one pixel below the graph |
| Paint.TextLeft | TaskbarMonitorCore/SystemWatcherControl.cs:361-363 | texts are centred on the middle of the history |
| Paint.Faint | TaskbarMonitorCore/SystemWatcherControl.cs:343-346 | the faint colour keeps the colour's channels and sets its alpha to 40 |
| Paint.DrawText | TaskbarMonitorCore/SystemWatcherControl.cs:343-364 | a visible text gets a shadow one pixel down and right; away from the mouse a HOVER text is faint, shadowless, and drawn only with its flag set |
| Paint.UsedPosition | TaskbarMonitorCore/SystemWatcherControl.cs:334-339 | the title occupies a slot exactly when it is not HIDDEN, and then the slot is its title position |
| Paint.Available | TaskbarMonitorCore/SystemWatcherControl.cs:383-385 | the free slots exclude the title's slot, top to bottom |
| Paint.ValueTexts | TaskbarMonitorCore/SystemWatcherControl.cs:374-391 | a summarised counter, or one with more than two series, shows the summary text alone at the summary slot; otherwise one text per series in free slots, with names when there are two |
| Paint.ValueShapes | TaskbarMonitorCore/SystemWatcherControl.cs:392-422 | shown value texts give a shadow and a text each; away from the mouse HOVER texts give one faint text each when their flag is set and nothing otherwise |
| Paint.PanelTexts | TaskbarMonitorCore/SystemWatcherControl.cs:334-423 | a panel with title and values hidden has no text; a fully shown title is drawn over its shadow in the title colour, centred over the history at its slot |
| Paint.PanelGraph | TaskbarMonitorCore/SystemWatcherControl.cs:301-324 | a counter without an options entry fails; a SINGLE graph is the first series' graph and fails without a series; MIRRORED draws the mirrored bands and STACKED the stacked layers, both in the counter's invert order |
| Paint.Enabled | TaskbarMonitorCore/SystemWatcherControl.cs:288 | the paint visits exactly the enabled entries |
| Paint.CounterIndex | TaskbarMonitorCore/SystemWatcherControl.cs:292 | a panel finds its counter exactly when one counter has the name; otherwise invalid operation |
| Paint.Advance | TaskbarMonitorCore/SystemWatcherControl.cs:429-434 | the next panel is one history width plus 10 to the right, or starts a new row once the width is reached |
| Paint.PaintFrom | TaskbarMonitorCore/SystemWatcherControl.cs:288-435 | a completed paint draws one panel per entry |
| Paint.PaintFromFirst | TaskbarMonitorCore/SystemWatcherControl.cs:288-435 | the first panel is the first entry's, at the current slot |
| Paint.PaintFromPanels | TaskbarMonitorCore/SystemWatcherControl.cs:288-435 | panel `k` is for entry `k`, found its counter, and sits where `k` advances lead |
| Paint.PaintControl | TaskbarMonitorCore/SystemWatcherControl.cs:268-438 | a completed paint draws one panel per enabled counter |
| Paint.AdvanceToNextSlot | TaskbarMonitorCore/SystemWatcherControl.cs:429-434 | on a control exactly `perLine` panels wide, one advance moves from grid slot `k` to slot `k + 1` |
| Paint.WalkSlots | TaskbarMonitorCore/SystemWatcherControl.cs:429-434 | `k` advances move `k` grid slots |
| Paint.WalkFromOrigin | TaskbarMonitorCore/SystemWatcherControl.cs:429-434 | `k` advances from the origin reach grid slot `k` |
| Paint.PanelsWalk | TaskbarMonitorCore/SystemWatcherControl.cs:280-435 | panel `k` sits where `k` advances from the origin lead |
| Paint.PanelsOnGrid | TaskbarMonitorCore/SystemWatcherControl.cs:280-435 | on a control exactly `perLine` panels wide, the `k`-th enabled counter is in column `k % perLine` and row `k / perLine` |
| Control.GetTheme | TaskbarMonitorCore/SystemWatcherControl.cs:101-118 | the named built-in theme, the stored theme for CUSTOM, and for AUTOMATIC the light theme exactly when the taskbar colour's channels sum above 382 |
| Control.ThemeThreshold | TaskbarMonitorCore/SystemWatcherControl.cs:112 | a channel sum of 382 still selects dark, and 383 selects light |
| Control.Present | TaskbarMonitorCore/SystemWatcherControl.cs:187-210 | the known names whose keys the options hold, in order, without repeats |
| Control.Make | TaskbarMonitorCore/SystemWatcherControl.cs:187-210 | the counter made for a name reports that name |
| Control.Create | TaskbarMonitorCore/SystemWatcherControl.cs:183-210 | one counter per known key present, in the order CPU, MEM, DISK, NET |
| Control.CreateCounters | TaskbarMonitorCore/SystemWatcherControl.cs:186-210 | at most four counters, no name twice, each with an options entry, and one for every known key |
| Control.CreateServesPaint | TaskbarMonitorCore/SystemWatcherControl.cs:288-292 | the paint finds a counter for an entry exactly when the entry's name is a known one |
| Control.StepEach | TaskbarMonitorCore/SystemWatcherControl.cs:258-263 | the loop keeps the number of elements |
| Control.StepEachCompletes | TaskbarMonitorCore/SystemWatcherControl.cs:258-263 | each element is stepped or untouched; the loop completes exactly when every step does, and then every element is stepped |
| Control.UpdateAll | TaskbarMonitorCore/SystemWatcherControl.cs:258-263 | the tick keeps the number of counters |
| Control.UpdateAllCompletes | TaskbarMonitorCore/SystemWatcherControl.cs:258-263 | the tick keeps every counter's kind, completes exactly when every update does, and then holds every updated counter |
| Control.UpdateAllStopsAtFault | TaskbarMonitorCore/SystemWatcherControl.cs:258-263 | an exception in the first update ends the tick and leaves the others untouched |
| Control.CountersCount | TaskbarMonitorCore/SystemWatcherControl.cs:54-62 | the count of enabled entries is the number of panels every completed paint draws |
| Control.AdjustControlSize | TaskbarMonitorCore/SystemWatcherControl.cs:229-256 | a horizontal layout is one row as wide as all panels and exactly as high as the larger of 30 and the taskbar; vertical mode starts when the taskbar reports a width and no height; a vertical taskbar narrower than a row gets the floor of its width over a panel width panels per line and the ceiling of the count over that many 40-pixel rows, and fails with an overflow exactly when a line holds no panel or a count leaves the 32-bit range |
| Control.PerLineBounds | TaskbarMonitorCore/SystemWatcherControl.cs:246 | a taskbar at least one panel wide holds between one and its width's worth of panels per line |
| Control.RowsBounds | TaskbarMonitorCore/SystemWatcherControl.cs:248 | the number of rows is between one and the number of counters, and the rows hold every counter |
| Control.SlotInsideGrid | TaskbarMonitorCore/SystemWatcherControl.cs:244-248 | every slot of the grid lies inside its columns and rows |
| Control.VerticalLayoutHoldsPanels | TaskbarMonitorCore/SystemWatcherControl.cs:229-256 | on a narrow vertical taskbar the control is no wider than the taskbar and holds every panel slot the paint uses |
| Control.HorizontalLayoutIsOneRow | TaskbarMonitorCore/SystemWatcherControl.cs:240-242 | on a horizontal taskbar panel `k` sits `k` panel widths along the top row |
| OptionForm.AvailableGraphTypes | TaskbarMonitorCore/OptionForm.cs:46-81 | the offered graph types exist exactly for the four known counters; other keys are not found |
| OptionForm.GraphTypesOffered | TaskbarMonitorCore/OptionForm.cs:46-81 | every known counter offers SINGLE, only memory refuses STACKED, only disk and network offer MIRRORED, none twice |
| OptionForm.OfferedTypesMatchCounters | TaskbarMonitorCore/OptionForm.cs:46-81 | memory is offered exactly the type it draws, and every counter is offered SINGLE |
| OptionForm.FormControls | TaskbarMonitorCore/OptionForm.cs:248-266 | each control's enablement as an if-and-only-if: separate scales exactly for MIRRORED, invert order exactly when not SINGLE, each shadow flag exactly while its text shows on HOVER, the title position exactly while the title is not HIDDEN, the summary box exactly while the value is not HIDDEN, and the summary position exactly while, in addition, the box is checked; each disabled control leaving the drawing unchanged is stated by the lemmas below |
| OptionForm.ValueShapesSameDisplay | TaskbarMonitorCore/SystemWatcherControl.cs:402-422 | value texts depend on the options only through the display mode and, under HOVER, the shadow flag |
| OptionForm.InvertOrderEditableOnlyWhenDrawn | TaskbarMonitorCore/OptionForm.cs:255-258 | while the invert box is disabled, flipping InvertOrder does not change the drawn graph |
| OptionForm.TitleShadowEditableOnlyWhenDrawn | TaskbarMonitorCore/OptionForm.cs:260-262 | when the title shadow box is disabled, the panel's texts do not depend on it |
| OptionForm.ValueShadowEditableOnlyWhenDrawn | TaskbarMonitorCore/OptionForm.cs:260-263 | when the value shadow box is disabled, the panel's texts do not depend on it |
| OptionForm.TitlePositionEditableOnlyWhenDrawn | TaskbarMonitorCore/OptionForm.cs:260-264 | when the title position list is disabled, the panel's texts do not depend on it |
| OptionForm.SummaryEditableOnlyWhenDrawn | TaskbarMonitorCore/OptionForm.cs:260-266 | when the summary box is disabled the texts do not depend on it; when the summary position list is disabled they do not depend on it for counters with at most two series |
| OptionForm.FirstOther | TaskbarMonitorCore/OptionForm.cs:542-546 | the first position in declaration order other than the given one |
| OptionForm.ChooseTitle | TaskbarMonitorCore/OptionForm.cs:532-550 | the title takes the picked slot; a summary there moves to the first other slot; nothing else changes |
| OptionForm.ChooseSummary | TaskbarMonitorCore/OptionForm.cs:563-582 | the summary takes the picked slot; a title there moves to the first other slot; nothing else changes |
| OptionForm.CollisionMoves | TaskbarMonitorCore/OptionForm.cs:542-546 | a collision on TOP moves the other text to BOTTOM, and on BOTTOM or MIDDLE to TOP |
| OptionForm.ChosenPositionsKeepTextsApart | TaskbarMonitorCore/OptionForm.cs:532-582 | after a position is picked, a shown title never shares its slot with a value text |
| OptionForm.Targets | TaskbarMonitorCore/OptionForm.cs:197-211 | "All other graphs" targets every key but the selected one; any other item targets itself |
| OptionForm.Others | TaskbarMonitorCore/OptionForm.cs:200-206 | exactly the keys other than the selected one |
| OptionForm.CopyDisplay | TaskbarMonitorCore/OptionForm.cs:215-221 | a target takes the seven display fields and keeps enabled, type, order and scales |
| OptionForm.ReplicateTo | TaskbarMonitorCore/OptionForm.cs:213-223 | the only failure is a missing key |
| OptionForm.Replicate | TaskbarMonitorCore/OptionForm.cs:190-224 | the only failure is a missing key |
| OptionForm.ReplicateStep | TaskbarMonitorCore/OptionForm.cs:213-223 | one turn rewrites the target's own entry |
| OptionForm.ReplicateToKeys | TaskbarMonitorCore/OptionForm.cs:213-223 | the loop keeps the keys in place |
| OptionForm.ReplicateToFault | TaskbarMonitorCore/OptionForm.cs:213-223 | the loop throws exactly when a target is missing |
| OptionForm.ReplicateToEntries | TaskbarMonitorCore/OptionForm.cs:213-223 | a completed loop copies the display fields into every target and leaves every other entry untouched |
| OptionForm.ReplicateIdempotent | TaskbarMonitorCore/OptionForm.cs:190-224 | replicating again changes nothing |
| OptionForm.ReplicateToAllOthers | TaskbarMonitorCore/OptionForm.cs:197-223 | "All other graphs" completes, keeps the selected entry, and gives every other counter the active display fields over its own behaviour |
| OptionForm.ResetDefaults | TaskbarMonitorCore/OptionForm.cs:589-594 | the reset sets history 50, poll time 3 and the dark theme choice and copies the dark theme, keeping both versions |
| OptionForm.ResetRestoresDefaults | TaskbarMonitorCore/OptionForm.cs:589-594 | a reset restores the defaults of the four known counters, history 50, poll time 3, the dark theme choice and the dark colours; other counters and both versions are kept |
| Installer.Dispatch | TaskbarMonitorInstallerCore/Program.cs:29-36 | uninstall exactly when the first argument is `/uninstall` in any letter case; no argument installs |
| Installer.UninstallString | TaskbarMonitorInstallerCore/Program.cs:250 | the installer path, a space, then the uninstall flag |
| Installer.UninstallStringRollsBack | TaskbarMonitorInstallerCore/Program.cs:250 | the flag of the registered command makes the installer roll back |
| Installer.DispatchExamples | TaskbarMonitorInstallerCore/Program.cs:29 | any letter case and extra arguments still uninstall; no slash or no argument installs |
| Installer.Surviving | TaskbarMonitorInstallerCore/Program.cs:289-297 | the reference filter: exactly the pairs whose source lies outside the install path |
| Installer.KeepPairs | TaskbarMonitorInstallerCore/Program.cs:289-297 | the pair filter never lengthens the list and can only fail with an index error; the lemmas below compare it with the reference filter |
| Installer.KeepPairsFails | TaskbarMonitorInstallerCore/Program.cs:290-296 | the filter throws exactly for an odd-length list whose dangling last source is kept |
| Installer.KeepPairsStep | TaskbarMonitorInstallerCore/Program.cs:290-297 | one turn drops a pair under the install path and keeps any other pair in front |
| Installer.KeepPairsKeepsSurvivingPairs | TaskbarMonitorInstallerCore/Program.cs:289-297 | the kept list is whole pairs and equals the reference filter's pairs |
| Installer.KeepPairsIdempotent | TaskbarMonitorInstallerCore/Program.cs:289-299 | filtering the kept list again changes nothing |
| Installer.FilterPending | TaskbarMonitorInstallerCore/Program.cs:289-299 | the stepping-by-two loop computes the pair filter, failure included |
| Installer.CleanUpPendingDeleteOperations | TaskbarMonitorInstallerCore/Program.cs:268-311 | it writes a list exactly when the key opens, holds a string list and the filter completes; it writes the filtered list with an empty message, and reports a message otherwise |
| Installer.CleanUpRemovesOnlyOwnRenames | TaskbarMonitorInstallerCore/Program.cs:289-299 | after a write no rename under the install path remains, every other rename survives, and cleaning again writes the same list |
| Installer.CleanUpFailsOnlyOnDanglingSource | TaskbarMonitorInstallerCore/Program.cs:289-310 | a string list is cleaned exactly when it has no dangling source outside the install path; otherwise the generic error is reported and nothing written |

## Left out

- Threads, the `ThreadLock` locks and the polling timer: a tick is one sequential step, and the timer interval (`PollTime * 1000`) is not modelled.
- GDI drawing, fonts and `MeasureString`: shapes are returned as data, and string sizes and the mouse state come from `Paint.Surface`.
- Performance counters, `GetPhysicallyInstalledSystemMemory`, the taskbar colour and the screen size: these are inputs.
- Files, JSON and the registry: `Options.ReadFromDisk`, `Options.SaveToDisk`, `GraphTheme.ReadFromDisk` and `GraphTheme.SaveToDisk` are left out. The stored theme is a parameter of `Control.GetTheme`, and the pending-rename value is a parameter of the installer's clean-up.
- `Options.Upgrade`: the model returns the in-place upgrade's flag. The public method's `SaveToDisk` call, which then answers `true` or throws, is left out.
- Numeric.ClampedConversionSucceeds: holds only over exact reals. In binary32, `int.MaxValue` as a float is 2^31, so the saturated value is 2147483648 and `Convert.ToInt32` of it throws. Where `Graphs.BarSpan` and `Stacked.LayerSamples` yield `int.MaxValue` for a saturated level, the program throws an `OverflowException` instead.
- Binary32 floating point: samples, scales and positions are exact reals, so float rounding and infinities are not modelled. A division by a zero maximum is an overflow error.
- Integer width: control sizes and positions are unbounded integers, so 32-bit wrap-around of `counterSize * CountersCount` is not modelled.
- Culture: `ToLower` maps only ASCII letters and `OrderBy` on instance names uses ordinal order. The .NET culture-sensitive comparisons are not modelled.
- Display strings: `ToString("0")` and `ToString("0.0")` plus a unit are modelled as the number and the unit, not as characters.
- The `CounterType` enum declaration is not part of this model. A new `CounterOptions` takes its first member, assumed to be SINGLE.
- The settings form's other parts are left out: colour and font dialogs, `UpdateThemeOptions`, `ApplyOptions`, the preview control, list `DataSource`/`Text` plumbing, `Enum.Parse` of list text (the model takes a position directly), the `_initializing` guard, and the field-assigning handlers that only copy one control into one option.
- The control's context menu, `OpenSettings`, `PreviewMode`, the `OnChangeSize` event, the `Height`/`lastSize` update during paint, and the `MessageBox` error reporting are left out.
- The installer's `Install` and `RollBack` bodies, COM registration, the Restart Manager, the other uninstall registry values and the console output are left out.
- The WPF variant, `DeskBand`, `MenuButton` and the Windows API library are not part of this model.
- Control.CountersCount: does not model the branch that returns 0 while the counter list is null, because the list is always created before the count is read here.
- Control.AdjustControlSize: the vertical-mode flag is an input rather than a field that stays set, and the size-change comparison and event are left out.
- CounterNetwork.Update: assumes re-reading the interface list inside the `catch` does not throw. In the source, an exception there would escape the update.
- Installer.CleanUpPendingDeleteOperations: models only the filter's index exception among the exceptions the `catch` handles. Failures to open the key or to write the value are not modelled.
- Counters.Update: a CPU core's sample is taken from its position in the sampled core list. Exceptions from the performance counters themselves are not modelled, except for the network counter's failing `NextValue`.
