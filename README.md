# Opsin patch-clamp analysis: index arithmetic of the recording scripts

This project models the analysis core of the patch-clamp scripts of
Antinucci, Dumitrescu et al. (2020). It covers six current-clamp and
voltage-clamp scripts plus the gap-free threshold script, and the two
exponential-fit helpers they import.

Every script follows the same steps:

- It finds where a stimulus channel (light or injected current) is above a
  level, with `np.where`.
- It cuts those sample positions into pulses with `consecutive`, which is
  `np.split` at every position where `np.diff` differs from 1.
- It widens each pulse by a fixed number of samples on each side.
- It reads the voltage or current channel over every widened window.
- From each window it derives peaks, deflections from a baseline, latencies,
  spike counts, spike frequencies and decay time constants.

## How the scripts become Dafny

- **Samples** are `real`. A channel is a `seq<real>`. Sample positions are
  `int`.
- **Peak detection.** `scipy.signal.find_peaks` is a parameter `fp` of type
  `PeakFinder`. Its only assumed properties are in `Spikes.ValidFinder`: the
  peaks are strictly increasing positions inside the segment, and each is at
  least the height asked for.
- **Curve fitting.** `scipy.optimize.curve_fit` is a parameter of type
  `Fitter`. `None` stands for the exception it raises when it fails.
- **Rounding.** `round()` on a pandas series rounds half to even.
  `Numeric.RoundHalfEven` models it exactly on the integers `count / rate`.
- **Crashes that depend on the whole input become `requires`.** Examples are
  a window reaching past either end of the recording, `np.vstack` of windows
  of different lengths, and a name that is never bound.
- **Crashes that depend on one computed value are modelled as `Option`.**
  This covers `IndexError` on an empty selection in the gap-free script,
  `ZeroDivisionError` in the short-pulse script and a failing curve fit.
  Each of these ends the script, so the model computes nothing that comes
  after it: the gap-free blocks stop at the first failing one, and the
  decay constants at the first failing fit.
- **In-place list mutation.** The scripts mutate Python lists with `append`,
  `del l[i]`, `del l[lo:hi]` and `del l[start::step]`. These are methods of
  the class `PyLists.PyList`. The loops that build lists element by element
  are methods with loop invariants.

Where the written design of the scripts and their code differ, the model
follows the code:

- Windows are never clipped at the ends of the recording. A window reaching
  before position 0 would wrap around in numpy and one reaching past the end
  raises `IndexError`, so the model requires every window to fit.
- A failing curve fit aborts the decay-constant loop. It does not give one
  missing value per window, so `ExpFit.Collect` yields `None` for the whole
  list as soon as one fit fails.
- Some subthreshold latencies do not use the extremum they report:
  - In the inhibitory current-clamp script the reported peak is the minimum
    of the window for every opsin other than GtACR. The latency is still
    measured to the first maximum (`idxmax`).
  - In the short-pulse script the subthreshold latency is measured from
    position 39, although the windows there carry 999 samples before the
    pulse.

  Both are kept as written.

## Model

| member | source | states |
|---|---|---|
| Numeric.HeadMean | Excitatory_Opsin_Current_Clamp.py:52-54 | the baseline lies between the smallest and the largest of the first k samples (of all samples when the trace is shorter), and a flat stretch is its own baseline |
| Numeric.ArgMax | Excitatory_Opsin_Current_Clamp.py:302-304 | idxmax: the position holds a maximal sample and every earlier sample is strictly smaller (the first maximum) |
| Numeric.ArgMin | Excitatory_Opsin_Voltage_Clamp.py:229 | idxmin: the position holds a minimal sample and every earlier sample is strictly larger |
| Numeric.MaxOf | Excitatory_Opsin_Current_Clamp.py:307-308 | max over a window is one of its samples and bounds all of them from above |
| Numeric.MinOf | Excitatory_Opsin_Voltage_Clamp.py:176 | min over a window is one of its samples and bounds all of them from below |
| Numeric.Abs | Excitatory_Opsin_Current_Clamp.py:309 | abs is non-negative and equals the value or its negation |
| Numeric.RoundHalfEvenNearest | Excitatory_Opsin_Current_Clamp.py:203-204 | the rounded length is within half a millisecond of count/rate, and an exact tie goes to the even neighbour |
| Numeric.RoundHalfEvenUnique | Excitatory_Opsin_Current_Clamp.py:203-204 | any integer strictly closer than half to count/rate is the rounded value, so rounding is the nearest integer |
| Indexing.Where | Excitatory_Opsin_Current_Clamp.py:199 | np.where(trace > level): increasing in-range positions, each above the level, and every position above the level is listed |
| Indexing.FirstAbove | Gapfree_AP_stim.py:164-165 | the first position above the level, and None exactly when there is none (where `[0][0]` raises) |
| Indexing.LastAbove | Gapfree_AP_stim.py:166 | the last position above the level, None exactly when there is none |
| Indexing.FirstBelow | Excitatory_Opsin_Voltage_Clamp.py:219-223 | the first position below the level (the first TRUE kept by drop_duplicates), None when the window never goes below it |
| Indexing.Take | Excitatory_Opsin_Current_Clamp.py:209 | fancy indexing trace[idx]: one sample per position, in the order of the positions |
| Indexing.PySlice | Inhibitory_Opsin_CC_Long_AP_Inhibit.py:234 | Python slicing: element k is s[lo + k], the length is clipped to the sequence and zero when lo >= hi, and an upper bound past the end reads to the end |
| Indexing.PySliceAllIn | Inhibitory_Opsin_CC_Long_AP_Inhibit.py:234-237 | a slice of in-range positions holds only in-range positions |
| Indexing.PyIndex | Inhibitory_Opsin_CC_Long_AP_Inhibit.py:231-234 | a non-negative bound is itself; a negative bound i stands for n + i, or for 0 when n + i is negative |
| Segmentation.Diff | Excitatory_Opsin_Current_Clamp.py:158 | np.diff: one difference per adjacent pair |
| Segmentation.WhereNotEqual | Excitatory_Opsin_Current_Clamp.py:158 | exactly the increasing positions whose difference is not the step |
| Segmentation.PlusOne | Excitatory_Opsin_Current_Clamp.py:158 | the +1 shift of every break position |
| Segmentation.Cuts | Excitatory_Opsin_Current_Clamp.py:158 | the split points are increasing, strictly inside the data, and k is a split point exactly when data[k] - data[k-1] is not the step |
| Segmentation.CutsSound | Excitatory_Opsin_Current_Clamp.py:158 | every split point lies on a broken step |
| Segmentation.CutsComplete | Excitatory_Opsin_Current_Clamp.py:158 | every broken step is a split point |
| Segmentation.NpSplit | Excitatory_Opsin_Current_Clamp.py:158 | np.split yields one more piece than split points |
| Segmentation.SplitLength | Excitatory_Opsin_Current_Clamp.py:158 | the recursive split yields one piece per split point plus one |
| Segmentation.SplitFromFlatten | Excitatory_Opsin_Current_Clamp.py:158 | concatenating the pieces of a split at increasing in-range points gives back the array |
| Segmentation.SplitFromRuns | Excitatory_Opsin_Current_Clamp.py:158 | splitting exactly at the broken steps yields maximal runs: steps of `stepsize` inside each piece, a broken step between pieces |
| Segmentation.ConsecutiveFlatten | Excitatory_Opsin_Current_Clamp.py:157-158 | consecutive loses and invents nothing: its runs concatenate to the input |
| Segmentation.ConsecutiveEmpty | Excitatory_Opsin_Current_Clamp.py:157-158 | consecutive of an empty array is one empty run |
| Segmentation.ConsecutiveMaximal | Excitatory_Opsin_Current_Clamp.py:157-158 | on non-empty data every run is non-empty, steps by `stepsize` inside, and adjacent runs are separated by a broken step |
| Segmentation.MaximalRunsUnique | Excitatory_Opsin_Current_Clamp.py:157-158 | two decompositions into maximal runs of the same data are equal, so the two properties above determine consecutive completely |
| Segmentation.FirstRunBreaks | Excitatory_Opsin_Current_Clamp.py:157-158 | the first run is the longest prefix stepping by `stepsize` |
| Segmentation.ConsecutiveMembers | Excitatory_Opsin_Current_Clamp.py:157-158 | every element of every run comes from the input |
| Segmentation.ConsecutiveFirst | Excitatory_Opsin_Current_Clamp.py:200-219 | on non-empty data the first run is non-empty and starts with the first position |
| Windows.Expand | Excitatory_Opsin_Current_Clamp.py:208 | the widened run has pre + len + post positions with the run itself in the middle |
| Windows.RunIsRange | Excitatory_Opsin_Current_Clamp.py:200 | a run of consecutive(…, 1) is the contiguous range from its first to its last position |
| Windows.ExpandIsRange | Excitatory_Opsin_Current_Clamp.py:208 | the widened run is the contiguous range from x[0]-pre to x[-1]+post |
| Windows.ExpandInRecording | Excitatory_Opsin_Current_Clamp.py:208-209 | a widened run that fits the recording holds only valid positions |
| Windows.WindowData | Excitatory_Opsin_Current_Clamp.py:209 | sample i of a window is the trace at x[0] - pre + i |
| Windows.WindowsData | Excitatory_Opsin_Current_Clamp.py:223 | one window per run, each the window of that run |
| Windows.ExpandAll | Excitatory_Opsin_Current_Clamp.py:208 | the list comprehension widens every run |
| Windows.SteadyWindow | Inhibitory_Opsin_Current_Clamp.py:201-212 | the steady window starts with the columns iloc[19899:19999] keeps of the light run (samples 19899..19998, or 19899 to the end of a shorter run) and runs 19999 samples further |
| Windows.SteadyWindowIsRange | Inhibitory_Opsin_Current_Clamp.py:201-212 | for a contiguous run the steady window is the contiguous range from run[19899] to 19999 past the last kept column (run[19998], or the run's last sample when it is shorter) |
| Windows.ConsecutiveSteps | Excitatory_Opsin_Current_Clamp.py:200 | every run of consecutive(…, 1) of non-empty data is non-empty and steps by 1 |
| Windows.RunsData | Inhibitory_Opsin_CC_Long_AP_Inhibit.py:206 | the trace read over every run, unwidened |
| Windows.ConsecutiveIn | Inhibitory_Opsin_CC_Long_AP_Inhibit.py:164 | runs of in-range positions hold only in-range positions |
| Spikes.Intervals | Excitatory_Opsin_Current_Clamp.py:166-167 | one interval per adjacent spike pair, each positive |
| Spikes.SpikeFrequency | Excitatory_Opsin_Current_Clamp.py:161-188 | the frequency exists exactly when there are at least two spikes, and is then positive |
| Spikes.IntervalsTelescope | Excitatory_Opsin_Current_Clamp.py:166-167 | the first k intervals add up to (peak k - first peak)/rate |
| Spikes.SpikeFrequencyTwo | Excitatory_Opsin_Current_Clamp.py:174-177 | with two spikes the frequency is 1000·rate over their distance in samples |
| Spikes.SpikeFrequencyMean | Excitatory_Opsin_Current_Clamp.py:161-188 | with n >= 2 spikes both branches give 1000·rate·(n-1)/(last - first), so the branch on the interval count agrees with averaging |
| Spikes.SpikeFrequencyMany | Excitatory_Opsin_Current_Clamp.py:179-183 | the mean-interval branch equals the closed form above |
| Spikes.SpikeFrequencyOfMean | Excitatory_Opsin_Current_Clamp.py:179-183 | for three or more spikes the frequency is 1000 over the mean interval, which is positive |
| Spikes.MeanInterval | Excitatory_Opsin_Current_Clamp.py:181 | the mean interval is (last - first)/rate/(n-1) |
| Spikes.PeakLists | Inhibitory_Opsin_CC_Short_AP_Inhibit.py:286-288 | the append loop gives one find_peaks list per window, whose lengths are the peak counts |
| Spikes.Counts | Inhibitory_Opsin_CC_Long_AP_Inhibit.py:335-337 | one length per peak list |
| Spikes.PeakCounts | Inhibitory_Opsin_CC_Long_AP_Inhibit.py:328-337 | one peak count per window |
| Spikes.CountPeaks | Inhibitory_Opsin_CC_Long_AP_Inhibit.py:333-337 | the len() append loop yields exactly the lengths of the lists |
| Spikes.TotalSpikes | Inhibitory_Opsin_CC_Short_AP_Inhibit.py:290-293 | the nested counting loop yields the sum of the list lengths |
| Spikes.SumNatBounds | Excitatory_Opsin_Current_Clamp.py:685 | every count is at most the total, and the total is zero exactly when every count is |
| Response.Extremum | Inhibitory_Opsin_Current_Clamp.py:231-236 | the window's maximum or minimum by polarity: a sample bounding all others |
| Response.Latency | Excitatory_Opsin_Current_Clamp.py:342-343 | latency × rate equals the distance in samples from the onset |
| Response.LatencyMonotone | Excitatory_Opsin_Current_Clamp.py:342-343 | a later position never has a shorter latency |
| Response.SubThresholdResponse | Excitatory_Opsin_Current_Clamp.py:335-347 | no spike, one subthreshold event, no frequency, peak the window extremum, latency to the first maximum, deflection peak minus baseline |
| Response.SpikeResponse | Excitatory_Opsin_Current_Clamp.py:349-365 | count of peaks, peak and latency of the first spike, deflection from the baseline, spike frequency of the peaks |
| Response.Classify | Excitatory_Opsin_Current_Clamp.py:335-365 | a spike response exactly when find_peaks found something, otherwise subthreshold; frequency exactly when two or more spikes |
| Response.ClassifyPeakBounds | Excitatory_Opsin_Current_Clamp.py:318-365 | the reported peak lies between the window's minimum and maximum, and a spike peak reaches the find_peaks height |
| Response.ClassifyFrequency | Excitatory_Opsin_Current_Clamp.py:365 | the frequency of a spike block is 1000·rate·(n-1)/(last - first) |
| PyLists.DelSliceOf | Excitatory_Opsin_Current_Clamp.py:679 | del l[lo:hi] removes exactly positions lo..hi-1 after clipping, and nothing when hi <= lo |
| PyLists.StepSliceAt | Inhibitory_Opsin_CC_Long_AP_Inhibit.py:359-360 | element i of l[start::step] is l[start + i·step], and the slice reaches the end of the list |
| PyLists.DelOddPositions | Excitatory_Opsin_Current_Clamp_Frequency.py:297 | del l[1::2] keeps (len+1)/2 entries, entry k being l[2k] |
| PyLists.DelOddIsEvenSlice | Excitatory_Opsin_Current_Clamp_Frequency.py:297 | del l[1::2] leaves what l[::2] reads |
| PyLists.DelEveryThird | Inhibitory_Opsin_CC_Long_AP_Inhibit.py:377 | del l[0::3] keeps len - ceil(len/3) entries, entry k being l[3(k/2) + 1 + k%2] |
| PyLists.PyList.constructor | Excitatory_Opsin_Current_Clamp.py:678 | a list object holding the given items |
| PyLists.PyList.Append | Excitatory_Opsin_Current_Clamp_Frequency.py:294 | append adds one item at the end |
| PyLists.PyList.DelAt | Inhibitory_Opsin_CC_Long_AP_Inhibit.py:342 | del l[i] removes exactly item i |
| PyLists.PyList.DelSlice | Excitatory_Opsin_Current_Clamp.py:679 | del l[lo:hi] in place |
| PyLists.PyList.DelStep | Inhibitory_Opsin_CC_Long_AP_Inhibit.py:377 | del l[start::step] in place |
| CurrentPulse.BaselineSubtracted | Excitatory_Opsin_Current_Clamp.py:54-55 | each sample minus the mean of the first 1999 samples |
| CurrentPulse.DropDuplicates | Excitatory_Opsin_Current_Clamp.py:205 | the same values, each once, in the order of their first occurrence, never longer |
| CurrentPulse.DropDuplicatesDistinct | Excitatory_Opsin_Current_Clamp.py:205 | drop_duplicates leaves a list without repeats unchanged |
| CurrentPulse.RoundedLengths | Excitatory_Opsin_Current_Clamp.py:203-204 | one duration per pulse, its sample count over the rate rounded half to even |
| CurrentPulse.RoundedLengthsNearest | Excitatory_Opsin_Current_Clamp.py:203-204 | each duration is within half a millisecond of the pulse length |
| CurrentPulse.FirstWindowCrosses | Excitatory_Opsin_Current_Clamp.py:216-219 | in the first current window the sample at the margin (the pulse's first position) is above 10 pA |
| CurrentPulse.FirstWindowCurrent | Excitatory_Opsin_Current_Clamp.py:209-213 | the first current window is longer than the margin and above 10 pA at the margin |
| CurrentPulse.PulseStart | Excitatory_Opsin_Current_Clamp.py:216-219 | the first position of the first window above 10 pA, which is never after the margin |
| CurrentPulse.VoltageWindows | Excitatory_Opsin_Current_Clamp.py:222-224 | one non-empty voltage window per pulse, each the widened pulse |
| CurrentPulse.ResponseOf | Excitatory_Opsin_Current_Clamp.py:225-253 | spiking exactly when find_peaks at 0 mV finds a peak in the first window, then the first-window spike response with peak >= 0; otherwise a subthreshold response for every window with onset 39 |
| CurrentPulse.CurrentPulseBranch | Excitatory_Opsin_Current_Clamp.py:194-269 | no current pulse exactly when max(current) <= 40; otherwise distinct durations with the same values as the rounded lengths in the order of their first occurrence, the first window's maximum current (> 10 pA), the pulse start and the response |
| ExcitatoryCurrentClamp.CurrentPart | Excitatory_Opsin_Current_Clamp.py:194-269 | the 39-sample current-pulse branch: pulse exactly when max > 40, starting within the margin, with a maximum above 10 pA |
| ExcitatoryCurrentClamp.LedPart | Excitatory_Opsin_Current_Clamp.py:280-700 | light durations, maximum voltages, absolute current maxima, delays to the maximum, deflections from the baseline, one response per kept light pulse, and spike_count_total_LED_trace as the sum of the kept counts, zero exactly when every kept pulse is subthreshold |
| LedPulses.FirstPulseMs | Inhibitory_Opsin_CC_Short_AP_Inhibit.py:254-256 | LED_time[0]: the first pulse's length in ms, within half a millisecond |
| LedPulses.LedWindows | Excitatory_Opsin_Current_Clamp.py:292-296 | one window per light pulse, of length pre + pulse + post |
| LedPulses.Extrema | Excitatory_Opsin_Current_Clamp.py:308 | the extremum of every window |
| LedPulses.AbsMaxima | Excitatory_Opsin_Current_Clamp.py:307-309 | the absolute value of every window's maximum, non-negative |
| LedPulses.Deflections | Excitatory_Opsin_Current_Clamp.py:310-311 | each deflection added to the baseline gives back the peak |
| LedPulses.MaxDelays | Excitatory_Opsin_Current_Clamp.py:302-304 | each delay is the latency of the window's first maximum from position 1999 |
| LedPulses.StimulusResponse | Excitatory_Opsin_Current_Clamp.py:316-365 | one LED block: spike count, spike exactly when find_peaks at -30 mV finds a peak (then the peak is at least -30), otherwise the window extremum and max-delay latency |
| LedPulses.StimulusBlocks | Excitatory_Opsin_Current_Clamp.py:316-672 | seven slots; slot k holds the block of pulse k exactly when pulse k exists (IndexError otherwise) |
| LedPulses.KeepStimulated | Excitatory_Opsin_Current_Clamp.py:676-679 | del l[len(LED_data):7] keeps the first min(n, 7) slots |
| LedPulses.KeptCounts | Excitatory_Opsin_Current_Clamp.py:682-683 | the spike count of every kept slot |
| LedPulses.StimulusCounts | Excitatory_Opsin_Current_Clamp.py:682-685 | the find_peaks count of each of the first n windows |
| LedPulses.StimulusResponses | Excitatory_Opsin_Current_Clamp.py:316-685 | min(n, 7) responses, each the block of its pulse, and their spike total |
| LedPulses.StimulusTotalBounds | Excitatory_Opsin_Current_Clamp.py:685 | each kept count is at most the total, and the total is zero exactly when every kept block is subthreshold |
| LedPulses.Summarise | Excitatory_Opsin_Current_Clamp.py:302-700 | the per-pulse lists; the spike total is zero exactly when every kept response is subthreshold; each subthreshold response agrees with the per-pulse peak, delay and deflection lists |
| InhibitoryCurrentClamp.PolarityMatchesAnchor | Inhibitory_Opsin_Current_Clamp.py:626-640 | the peak is the maximum exactly for GtACR, and the decay fit then starts at the same extremum the peak reports |
| InhibitoryCurrentClamp.SteadyData | Inhibitory_Opsin_Current_Clamp.py:202-218 | voltage_data_steady for one light run: contiguous samples from run[19899], 20099 of them for a run of 19999 samples or more and fewer for a run of 19900-19998 samples |
| InhibitoryCurrentClamp.SteadyRows | Inhibitory_Opsin_Current_Clamp.py:199-218 | for light pulses of equal length (the float index crash otherwise) longer than 19899 samples (x[-1] of an empty slice otherwise), one steady row per pulse: contiguous samples from the pulse's sample 19899 to 19999 past the last kept column |
| InhibitoryCurrentClamp.SteadyRowsOf | Inhibitory_Opsin_Current_Clamp.py:212-218 | the steady row of each run |
| InhibitoryCurrentClamp.SteadyRunsReady | Inhibitory_Opsin_Current_Clamp.py:199-212 | every light run keeps at least one column of iloc[19899:19999] and its steady window fits |
| InhibitoryCurrentClamp.LedPart | Inhibitory_Opsin_Current_Clamp.py:195-631 | durations, peaks by opsin polarity, absolute current maxima, delays to the maximum, deflections from the 1999-sample baseline, one response per kept pulse and the spike total as the sum of the kept counts, zero exactly when all are subthreshold |
| InhibitoryCurrentClamp.SteadyPart | Inhibitory_Opsin_Current_Clamp.py:229-241 | for light pulses of equal length, the steady maxima and deflections per light pulse, and the decay constants fitted from the opsin's extremum (lines 637-649) |
| ExpFit.AnchorIndex | exponentialFitGetTau.py:13 | argmin (argmax in the inhibitory copy): an extremal position with every earlier sample strictly on the other side |
| ExpFit.ExponentialPartShape | exponentialFitGetTau.py:12-20 | the part starts at the extremum and runs to the end when n = 0, otherwise for min(n, remaining) samples; it is never empty and x is cut alike |
| ExpFit.ExponentialPartStartsAtExtremum | exponentialFitGetTauInhibitory.py:9-17 | the fitted part starts at the minimum (argmin copy) or the maximum (argmax copy) |
| ExpFit.InitialGuess | exponentialFitGetTau.py:24 | p0 = [extremum of the part, 200, 0] |
| ExpFit.InitialGuessIsAnchorSample | exponentialFitGetTauInhibitory.py:27-28 | the initial amplitude is the first sample of the part, which is the extremum of the whole row |
| ExpFit.LinSpace | Inhibitory_Opsin_Current_Clamp.py:645 | np.linspace(1, n, n) is 1, 2, …, n |
| ExpFit.RowFits | Inhibitory_Opsin_Current_Clamp.py:643-646 | one fit per row, against 1..len(row) |
| ExpFit.Collect | Inhibitory_Opsin_Current_Clamp.py:642-648 | all taus divided by the rate exactly when every fit succeeded, otherwise None |
| ExpFit.DeactivationTaus | Inhibitory_Opsin_Current_Clamp.py:642-648 | the append loop yields Collect of the row fits |
| IndexSets.Without | Inhibitory_Opsin_CC_Long_AP_Inhibit.py:225-227 | the isin(invert=True) mask keeps exactly the positions not in the second array, in order |
| IndexSets.Intersect | Inhibitory_Opsin_CC_Long_AP_Inhibit.py:325 | exactly the common positions, increasing when the first array is |
| IndexSets.IncreasingUnique | Inhibitory_Opsin_CC_Long_AP_Inhibit.py:325 | two increasing arrays with the same elements are equal, so the two contracts above determine the arrays |
| IndexSets.IntersectWithoutPartition | Inhibitory_Opsin_CC_Long_AP_Inhibit.py:225-325 | every injected position is either coincident with light or current-only |
| LongApInhibit.InjectedIndices | Inhibitory_Opsin_CC_Long_AP_Inhibit.py:163 | increasing in-range positions of the injections |
| LongApInhibit.LightIndices | Inhibitory_Opsin_CC_Long_AP_Inhibit.py:194 | increasing in-range positions of the light |
| LongApInhibit.CurrentOnlyIndices | Inhibitory_Opsin_CC_Long_AP_Inhibit.py:225-227 | i is listed exactly when the current is above 20 pA and the light is off |
| LongApInhibit.CoincidentIndices | Inhibitory_Opsin_CC_Long_AP_Inhibit.py:325 | i is listed exactly when current and light are both on; with the current-only positions it makes up the injected positions |
| LongApInhibit.CurrentOnlyRuns | Inhibitory_Opsin_CC_Long_AP_Inhibit.py:228 | at least one run, all inside the recording |
| LongApInhibit.InjectionPart | Inhibitory_Opsin_CC_Long_AP_Inhibit.py:163-181 | the durations have the values of the rounded lengths, without repeats, in the order of their first occurrence; the first run's maximum current is above 20 pA; that run starts above 10 pA (start 0) |
| LongApInhibit.FirstInjectedRun | Inhibitory_Opsin_CC_Long_AP_Inhibit.py:163-175 | the first injection run is non-empty, in range, and its first sample is above 20 pA |
| LongApInhibit.PrePostSplit | Inhibitory_Opsin_CC_Long_AP_Inhibit.py:230-234 | np.split at [pre, len0-pre, len0] gives the four Python slices, a negative middle bound counting from the end |
| LongApInhibit.PrePostSplitPartition | Inhibitory_Opsin_CC_Long_AP_Inhibit.py:230-234 | on the first run the pieces partition it exactly when the second run is at most half as long; the pre and post parts are then as long as the second run |
| LongApInhibit.PrePostSplitIn | Inhibitory_Opsin_CC_Long_AP_Inhibit.py:234-237 | every piece stays inside the recording |
| LongApInhibit.SegmentCounts | Inhibitory_Opsin_CC_Long_AP_Inhibit.py:237-246 | the peak list and spike count of every segment |
| LongApInhibit.FirstSpikeTime | Inhibitory_Opsin_CC_Long_AP_Inhibit.py:365-372 | a time exactly when the list is non-empty, that time × rate being the first spike's position |
| LongApInhibit.FirstSpikeTimes | Inhibitory_Opsin_CC_Long_AP_Inhibit.py:364-372 | the append loop gives the first-spike time of every list |
| LongApInhibit.LightRuns | Inhibitory_Opsin_CC_Long_AP_Inhibit.py:197 | the light runs lie inside the recording |
| LongApInhibit.LightCounts | Inhibitory_Opsin_CC_Long_AP_Inhibit.py:322-337 | the spike count of the voltage over every light run |
| LongApInhibit.Rig1Control | Inhibitory_Opsin_CC_Long_AP_Inhibit.py:222-246 | the spike counts of the pre, mid and post pieces of the first current-only run |
| LongApInhibit.Rig1PrePost | Inhibitory_Opsin_CC_Long_AP_Inhibit.py:340-372 | after del l[0], pre counts from runs 1, 3, 5, … and post counts and first-spike times from runs 2, 4, 6, … |
| LongApInhibit.AlternatingCounts | Inhibitory_Opsin_CC_Long_AP_Inhibit.py:344-372 | counts[::2] as pre counts, counts[1::2] as post counts, first-spike times of lists[1::2] |
| LongApInhibit.Column | Inhibitory_Opsin_CC_Long_AP_Inhibit.py:268-281 | the loop collects item c of every split |
| LongApInhibit.PartCounts | Inhibitory_Opsin_CC_Long_AP_Inhibit.py:283-318 | the spike count of piece c of every long run |
| LongApInhibit.Rig2Control | Inhibitory_Opsin_CC_Long_AP_Inhibit.py:248-318 | for every third run (0, 3, 6, …) the spike counts of its pre, mid and post pieces, split by the lengths of runs 1 and 0 |
| LongApInhibit.LongRuns | Inhibitory_Opsin_CC_Long_AP_Inhibit.py:260 | runs[0::3] holds runs 0, 3, 6, …, all in range |
| LongApInhibit.SplitAll | Inhibitory_Opsin_CC_Long_AP_Inhibit.py:263-266 | the append loop splits every long run |
| LongApInhibit.Rig2PrePost | Inhibitory_Opsin_CC_Long_AP_Inhibit.py:375-412 | after del l[0::3], pre counts from runs 1, 4, 7, … and post counts and first-spike times from runs 2, 5, 8, … |
| LongApInhibit.DropControlRun | Inhibitory_Opsin_CC_Long_AP_Inhibit.py:341-342 | the list object without its first run |
| LongApInhibit.DropControlRuns | Inhibitory_Opsin_CC_Long_AP_Inhibit.py:376-377 | the list object without runs 0, 3, 6, … |
| LongApInhibit.OtherRuns | Inhibitory_Opsin_CC_Long_AP_Inhibit.py:376-382 | after del l[0::3], entry 2k is run 3k+1 and entry 2k+1 is run 3k+2 |
| LongApInhibit.EvenOddSlices | Inhibitory_Opsin_CC_Long_AP_Inhibit.py:359-362 | l[::2] holds the even positions and l[1::2] the odd ones |
| ShortApInhibit.CurrentPart | Inhibitory_Opsin_CC_Short_AP_Inhibit.py:163-236 | the current-pulse branch with a 999-sample margin: pulse exactly when max > 40, starting within the margin, above 10 pA; the durations, current, start and subthreshold response are those of the excitatory branch, and a spiking response carries no frequency (get_spike_frequency is never called, lines 209-221) |
| ShortApInhibit.LightPart | Inhibitory_Opsin_CC_Short_AP_Inhibit.py:243-273 | the first pulse's duration, absolute current maxima and voltage maxima per light window, deflections from the baseline |
| ShortApInhibit.CurrentOnlyWindows | Inhibitory_Opsin_CC_Short_AP_Inhibit.py:300-306 | one widened voltage window per current-only run |
| ShortApInhibit.InhibitionPercent | Inhibitory_Opsin_CC_Short_AP_Inhibit.py:322-324 | None exactly on division by zero; otherwise percent × avgI = (avgI - avgLED) × 100 |
| ShortApInhibit.InhibitionBounds | Inhibitory_Opsin_CC_Short_AP_Inhibit.py:322-324 | with spiking current-only pulses the inhibition is at most 100 %, exactly 100 % when light pulses had no spike, and non-negative exactly when light did not raise the average |
| ShortApInhibit.PerPulse | Inhibitory_Opsin_CC_Short_AP_Inhibit.py:295 | average × pulses = total, zero exactly when the total is |
| ShortApInhibit.SpikeInhibition | Inhibitory_Opsin_CC_Short_AP_Inhibit.py:280-324 | the light total over the coincident runs, the current-only total over the current-only runs, their averages and the percentage, None exactly when the current-only pulses had no spike |
| GapfreeApStim.CurrentBaselineSubtracted | Gapfree_AP_stim.py:102-103 | each sample minus the mean of the first 20000 samples |
| GapfreeApStim.StepWindows | Gapfree_AP_stim.py:123-128 | one window per step, 39 samples wider on each side |
| GapfreeApStim.PulseRows | Gapfree_AP_stim.py:118-135 | one row per step: its rounded length, the maximum current and the maximum voltage of its windows |
| GapfreeApStim.MinCurrentRow | Gapfree_AP_stim.py:138-157 | the row of the given length with voltage above 0 and the smallest current, the first such (idxmin); None exactly when the query is empty |
| GapfreeApStim.LengthBlock | Gapfree_AP_stim.py:144-172 | no spiking step exactly when the query is empty; IndexError exactly when the chosen step's current never exceeds 10 pA; else its current, voltage, delays from the first and last sample above 10 pA (start >= end) and the 0 mV spike count |
| GapfreeApStim.DelayOrder | Gapfree_AP_stim.py:168-169 | the delay from the start of the step is never shorter than the delay from its end |
| GapfreeApStim.AllBlocks | Gapfree_AP_stim.py:144-233 | block j is the block of the j-th step length (1, 2, 5 ms) and reports that length |
| GapfreeApStim.UpToFirstFailure | Gapfree_AP_stim.py:164-233 | the blocks run in order up to and including the first that raises: every earlier block succeeded, and a shorter list ends with the failure |
| GapfreeApStim.ThresholdSummary | Gapfree_AP_stim.py:144-233 | the 1, 2 and 5 ms blocks in order, stopping after the first IndexError: a prefix of the three blocks, every block but the last succeeded, and a missing block means the last one failed |
| CurrentClampFrequency.WindowSpikes | Excitatory_Opsin_Current_Clamp_Frequency.py:286-299 | the append loop and del [1::2] give the peak list and the peak count of every window |
| CurrentClampFrequency.Responding | Excitatory_Opsin_Current_Clamp_Frequency.py:301-305 | exactly the increasing positions of the windows with a spike |
| CurrentClampFrequency.Select | Excitatory_Opsin_Current_Clamp_Frequency.py:303-305 | the lists at the given positions |
| CurrentClampFrequency.ToMs | Excitatory_Opsin_Current_Clamp_Frequency.py:308 | time × rate is the position, never negative |
| CurrentClampFrequency.FirstTimes | Excitatory_Opsin_Current_Clamp_Frequency.py:306-308 | the first spike of every kept list in ms |
| CurrentClampFrequency.Kept | Excitatory_Opsin_Current_Clamp_Frequency.py:302-305 | the filtered lists are all non-empty |
| CurrentClampFrequency.FirstSpikeTimes | Excitatory_Opsin_Current_Clamp_Frequency.py:301-308 | one time per responding window, the first spike of that window in ms |
| CurrentClampFrequency.SquaredDeviations | Excitatory_Opsin_Current_Clamp_Frequency.py:311 | the sum of squared deviations is never negative |
| CurrentClampFrequency.JitterVariance | Excitatory_Opsin_Current_Clamp_Frequency.py:310-313 | None exactly when there are fewer than two times (StatisticsError); otherwise the non-negative sample variance |
| CurrentClampFrequency.NoJitterWhenAligned | Excitatory_Opsin_Current_Clamp_Frequency.py:310-313 | identical first-spike times give zero jitter |
| CurrentClampFrequency.WholeTrace | Excitatory_Opsin_Current_Clamp_Frequency.py:266-276 | spike total, one amplitude per spike at least -20 mV, and a frequency exactly when there are two or more spikes |
| CurrentClampFrequency.Analyse | Excitatory_Opsin_Current_Clamp_Frequency.py:162-313 | the first pulse's duration, one spike target per light pulse, the per-window counts, first-spike times of responding windows and a jitter that is missing exactly when fewer than two windows responded |
| VoltageClamp.Photocurrents | Excitatory_Opsin_Voltage_Clamp.py:176-177 | the absolute minimum of every current window; no sample lies below its negation |
| VoltageClamp.OnsetDelays | Excitatory_Opsin_Voltage_Clamp.py:218-228 | a window has an onset exactly when it goes below -10 pA, its delay being the first such position's latency from 1999 |
| VoltageClamp.ActivationDelays | Excitatory_Opsin_Voltage_Clamp.py:229-233 | the latency of the first minimum of every window |
| VoltageClamp.OnsetBeforeActivation | Excitatory_Opsin_Voltage_Clamp.py:219-233 | the response onset never comes after the peak of the photocurrent |
| VoltageClamp.Analyse | Excitatory_Opsin_Voltage_Clamp.py:158-245 | durations, photocurrents, onset and activation delays with onset before activation, and the decay constants fitted from the minimum |

## Left out

- Loading the recording files, `input()` prompts, the opsin and LED
  dictionaries, the LED power tables read from Excel, the `'na'` removal
  loop, plotting, `print` and the CSV/DataFrame output. These are
  input/output around the analysis. The model receives the channels and
  the sampling rate as parameters.
- `find_peaks` and `curve_fit` are parameters, because their numerical
  algorithms are outside the scripts. Only the properties the model
  relies on are assumed.
- Floating point is modelled as exact real arithmetic. NaN placeholders
  become `Option`, or an absent map entry.
- CurrentClampFrequency.JitterVariance: `statistics.stdev` is its square
  root. No square root is modelled, and the variance carries the same
  information.
- IndexSets.Intersect: it keeps the order of its first argument, and only
  states sortedness when that argument is sorted. `np.intersect1d` always
  sorts. Every call passes the output of `np.where`, which is already
  sorted.
- LedPulses.StimulusBlocks: the seven copied blocks are one loop over seven
  slots, one record per slot. The scripts keep seven parallel lists
  instead.
- VoltageClamp.OnsetDelays: the DataFrame built from
  `np.where(...).T.drop_duplicates(1)` is modelled as a map from pulse
  number to delay. Its row order is not modelled.
- InhibitoryCurrentClamp.SteadyRows: `LED_end_idx` is the transposed
  DataFrame slice `iloc[19899:19999]`, and its `x[-1]` is the last column
  it keeps: sample 19998 of the run, or the last sample of a run of
  19900-19998 samples, whose steady window is shorter. Both are modelled.
  A light pulse of 19899 samples or fewer keeps no column and `x[-1]`
  raises `IndexError`, so every light pulse must be longer than 19899
  samples. Light pulses of different lengths make `pd.DataFrame` pad with
  NaN, the positions become floats and indexing the trace with them
  raises `IndexError`, so equal lengths are required too.
- InhibitoryCurrentClamp.SteadyPart: works on the steady rows, so it has
  the same two preconditions as InhibitoryCurrentClamp.SteadyRows.
- InhibitoryCurrentClamp.LedPart: the script computes the steady rows
  (lines 199-218) before the light-pulse lists, so it stops there on light
  pulses of 19899 samples or fewer, or of different lengths. The
  light-pulse part is modelled on its own and still returns its lists for
  such inputs.
- The short-pulse script never calls `get_spike_frequency`: neither its
  light pulses nor the spiking branch of its current pulses
  (Inhibitory_Opsin_CC_Short_AP_Inhibit.py:209-221) have a spike
  frequency. ShortApInhibit.CurrentPart therefore sets the frequency of
  its spiking response to `None`.
- GapfreeApStim.ThresholdSummary: the 1, 2 and 5 ms blocks run one after
  another, and an `IndexError` in one ends the script. The summary lists
  the blocks up to and including the first failing one.
- Crashes that depend on the whole input are preconditions, not modelled
  failures:
  - the `NameError` of the short-pulse light part when no current pulse
    was found;
  - the `IndexError` of `x[0]` on an empty run, when the raw current goes
    above 40 pA but no baseline-subtracted sample is above 10 pA
    (CurrentPulse.PulsesFit asks for at least one such sample);
  - `IndexError` or numpy wrap-around when a window leaves the recording;
  - `np.vstack` and the transposes of windows of unequal length;
  - fewer than two current-only runs in the long-pulse control split.
- The relative sizes of the pre, mid and post pieces beyond Python's
  slicing rules are not interpreted. PrePostSplitPartition states when the
  pieces partition the run.
