# ankor-device-info sampling engine, in Dafny

This project models the sampling engine of the `ankor-device-info` hardware monitor.
It also models the small decision helpers of the monitor window.

- **GPU probe** (`NvidiaGpu.NvidiaMonitor`): best-effort initialisation, where each vendor call may fail.
  `Read` gives both values or neither. `Shutdown` is idempotent.
- **Sampler** (`Sampling.SystemSampler`): one `Snapshot` per `Sample`, built from OS readings that are passed in.
  The rolling network baseline lives in the fields `lastNet` and `lastTime`.
- **CPU temperature** (`CpuTemperature`): the preferred sensor groups are tried in a fixed order.
  Otherwise the result is the maximum over all groups. With no readings it is absent.
- **Network rate** (`NetworkRate`): the elapsed time is floored at 1e-6 s, and rates are clamped at 0.
- **Uptime** (`Uptime`, `Decimal`): whole seconds since boot, rendered the way Python's `str(timedelta)` does.
  A parser reads the text back, and the round trip is proved.
- **Helpers** (`Sampling`, `MonitorHelpers`, `AsciiText`): disk-mount resolution, binary gigabytes, the
  frequency and disk-usage fallbacks, progress-bar colour bands, rate-unit choice, settings-value parsing
  and the progress clamp.

OS queries, clocks and driver calls are inputs.
- `OsReadings` holds everything one sample reads.
- `InitOutcome` names the first vendor step that fails at GPU initialisation.
- `ReadOutcome` says whether a GPU read succeeds.
- `SensorSource` says whether a temperature query exists, fails, or yields groups.
- `FrequencyQuery` is the CPU-frequency answer.
- `DiskQueries` holds the answer of the disk-usage query of the resolved mount and, separately, the answer of the retry on "/".

Behaviours of the code that the model keeps as they are:
- **Rolling state.** `sample` reads `virtual_memory`, `swap_memory` and the disk usage (lines 136-138)
  before it replaces `_last_net` and `_last_time` (lines 145-146). If one of those calls raises, the baseline is not updated.
  `Sampling.SystemSampler.Sample` therefore returns `Failure` and leaves `lastNet` and `lastTime` unchanged in that case.
- **Disk fallback.** `_read_disk_usage` retries with `disk_usage("/")` when the query of the resolved mount raises (lines 173-177).
  The retry is not guarded, so it can raise as well. That is the `None` case of `ReadDiskUsage`, and then the sample aborts.
- **GPU shutdown.** `shutdown` calls `nvmlShutdown` only when the probe is available (lines 113-120). So if `nvmlInit`
  succeeded but a later step failed, the library is never shut down. `NvidiaMonitor.Shutdown` reports `released == old(available)`.
- **Timestamps.** Nothing checks that a new `time.monotonic()` reading is later than `_last_time`. Any reading is accepted,
  and only the elapsed-time floor of 1e-6 s (line 142) guards the division.

## Model

| member | source | states |
|---|---|---|
| `NvidiaGpu.NvidiaMonitor.constructor` | build/deb/ankor-device-info_1.0.0/usr/share/ankor-device-info/main.py:76-98 | available exactly when every vendor step succeeds; otherwise no name; the library flag and handle record the steps that succeeded |
| `NvidiaGpu.NvidiaMonitor.Initialize` | build/deb/ankor-device-info_1.0.0/usr/share/ankor-device-info/main.py:83-98 | each successful step records its result, a failing step leaves the probe unavailable and keeps what earlier steps recorded; a missing library changes nothing; the availability invariant is kept |
| `NvidiaGpu.NvidiaMonitor.Read` | build/deb/ankor-device-info_1.0.0/usr/share/ankor-device-info/main.py:100-111 | both values present exactly when the probe is available with library and handle and the vendor answers; then they are the vendor's numbers as reals; otherwise both absent |
| `NvidiaGpu.NvidiaMonitor.Shutdown` | build/deb/ankor-device-info_1.0.0/usr/share/ankor-device-info/main.py:113-120 | afterwards unavailable; the library is released exactly when the probe was available; on an unavailable probe nothing changes |
| `NvidiaGpu.ShutdownTwice` | build/deb/ankor-device-info_1.0.0/usr/share/ankor-device-info/main.py:113-120 | a second shutdown releases nothing; name, handle and library flag are kept |
| `NvidiaGpu.FailedProbeReportsNothing` | build/deb/ankor-device-info_1.0.0/usr/share/ankor-device-info/main.py:83-111 | after any failed initialisation there is no name and every read gives (None, None) |
| `CpuTemperature.Present` | build/deb/ankor-device-info_1.0.0/usr/share/ankor-device-info/main.py:218 | a value is kept exactly when it is a present reading of the group |
| `CpuTemperature.Entries` | build/deb/ankor-device-info_1.0.0/usr/share/ankor-device-info/main.py:217 | a non-empty answer is the entry list of a group with that name |
| `CpuTemperature.EntriesOfFirstNamed` | build/deb/ankor-device-info_1.0.0/usr/share/ankor-device-info/main.py:217 | the lookup gives the entries of the first group with that name, and nothing when no group has the name |
| `CpuTemperature.SeqMax` | build/deb/ankor-device-info_1.0.0/usr/share/ankor-device-info/main.py:220 | the result is an element of the list and no element exceeds it |
| `CpuTemperature.AllPresent` | build/deb/ankor-device-info_1.0.0/usr/share/ankor-device-info/main.py:222-224 | holds exactly the present readings of all groups |
| `CpuTemperature.FirstPreferred` | build/deb/ankor-device-info_1.0.0/usr/share/ankor-device-info/main.py:215-219 | a chosen key is a preferred name whose group has a present reading |
| `CpuTemperature.FirstPreferredIsFirst` | build/deb/ankor-device-info_1.0.0/usr/share/ankor-device-info/main.py:215-219 | the choice is first in priority order: every preferred key before it has no reading; there is no choice exactly when no preferred group has a reading |
| `CpuTemperature.ReadCpuTemperature` | build/deb/ankor-device-info_1.0.0/usr/share/ankor-device-info/main.py:202-225 | the loops (early return over the preferred keys, then collecting every reading) compute exactly the specified choice, absent when the query is unsupported or fails |
| `CpuTemperature.PreferredGroupDecides` | build/deb/ankor-device-info_1.0.0/usr/share/ankor-device-info/main.py:215-220 | the first preferred group with a reading decides: the result is that group's maximum, whatever other groups hold |
| `CpuTemperature.FallbackIsOverallMax` | build/deb/ankor-device-info_1.0.0/usr/share/ankor-device-info/main.py:222-225 | with no preferred group having readings, the result is present iff any reading exists and is then the maximum over all readings |
| `CpuTemperature.Chosen` | build/deb/ankor-device-info_1.0.0/usr/share/ankor-device-info/main.py:212-225 | a temperature exactly when some reading is present; it is one of the readings; the maximum of the first preferred group with readings, else the maximum of all readings |
| `CpuTemperature.TemperatureOf` | build/deb/ankor-device-info_1.0.0/usr/share/ankor-device-info/main.py:202-225 | absent when the query is unsupported or raises; otherwise present exactly when some group has a reading, and then one of the readings |
| `CpuTemperature.EmptyMapHasNoTemperature` | build/deb/ankor-device-info_1.0.0/usr/share/ankor-device-info/main.py:212-213 | an empty sensor dictionary gives no temperature |
| `CpuTemperature.CoretempBeatsHotterAcpitz` | build/deb/ankor-device-info_1.0.0/usr/share/ankor-device-info/main.py:215-220 | coretemp [40, 55] with acpitz [70] gives 55 |
| `NetworkRate.Elapsed` | build/deb/ankor-device-info_1.0.0/usr/share/ankor-device-info/main.py:142 | the interval is at least 1e-6 (so positive), at least the clock difference and equal to it or to the floor |
| `NetworkRate.Rate` | build/deb/ankor-device-info_1.0.0/usr/share/ankor-device-info/main.py:143-144 | never negative; zero after a counter reset; otherwise rate times elapsed time is exactly the counted bytes |
| `NetworkRate.RateMonotone` | build/deb/ankor-device-info_1.0.0/usr/share/ankor-device-info/main.py:163-164 | more bytes over the same interval never give a lower reported rate |
| `NetworkRate.TwoKilobytesInTwoSeconds` | build/deb/ankor-device-info_1.0.0/usr/share/ankor-device-info/main.py:142-143 | 2048 bytes over 2 seconds is 1024 B/s |
| `Uptime.Trunc` | build/deb/ankor-device-info_1.0.0/usr/share/ankor-device-info/main.py:148 | `int()` truncates toward zero: within one of the value on the side of zero |
| `Uptime.UptimeSeconds` | build/deb/ankor-device-info_1.0.0/usr/share/ankor-device-info/main.py:148 | never negative; the whole seconds of a non-negative elapsed time; zero below one second |
| `Uptime.Split` | build/deb/ankor-device-info_1.0.0/usr/share/ankor-device-info/main.py:149 | hours below 24, minutes and seconds below 60, and the fields add back to the total |
| `Uptime.DayPrefix` | build/deb/ankor-device-info_1.0.0/usr/share/ankor-device-info/main.py:149 | empty exactly for zero days; otherwise a comma-free text that reads back as the day count, followed by ", " |
| `Uptime.ClockText` | build/deb/ankor-device-info_1.0.0/usr/share/ankor-device-info/main.py:149 | the hours as `%d` text (no leading zero), then `:`, two-digit minutes, `:`, two-digit seconds; no comma; it reads back as the same hours, minutes and seconds |
| `Uptime.FormatUptime` | build/deb/ankor-device-info_1.0.0/usr/share/ankor-device-info/main.py:149 | reading the uptime text back gives the normalised fields of the same number of seconds; the reader accepts no leading zero in the day count or the hours, and `Uptime.UptimeTextUnique` shows this text is the only one it accepts for those fields |
| `Uptime.UptimeText` | build/deb/ankor-device-info_1.0.0/usr/share/ankor-device-info/main.py:148-149 | the text reads back as the normalised fields of the clamped, truncated seconds since boot |
| `Uptime.DayPart` | build/deb/ankor-device-info_1.0.0/usr/share/ankor-device-info/main.py:149 | below a day there is no day part; from a day on the text starts with the day count and "day, " (one day) or "days, " |
| `Uptime.ClockTextUnique` | build/deb/ankor-device-info_1.0.0/usr/share/ankor-device-info/main.py:149 | the only clock text that reads back as given normalised hours, minutes and seconds is the one rendered for them |
| `Uptime.DayWordUnique` | build/deb/ankor-device-info_1.0.0/usr/share/ankor-device-info/main.py:149 | day-count text that reads back as a count is exactly that count's digits followed by " day" (one) or " days" |
| `Uptime.UptimeTextUnique` | build/deb/ankor-device-info_1.0.0/usr/share/ankor-device-info/main.py:149 | an uptime text that reads back as the fields of a number of seconds is exactly the text rendered for that number |
| `Decimal.TwoDigitsArePad2` | build/deb/ankor-device-info_1.0.0/usr/share/ankor-device-info/main.py:149 | two digits whose value is below 100 are the two-digit padding of that value |
| `Uptime.OneHourOneMinuteOneSecond` | build/deb/ankor-device-info_1.0.0/usr/share/ankor-device-info/main.py:149 | 3661 seconds renders as "1:01:01" |
| `Decimal.NatToString` | build/deb/ankor-device-info_1.0.0/usr/share/ankor-device-info/main.py:149 | at least one digit, no leading zero, one digit exactly below ten |
| `Decimal.Pad2` | build/deb/ankor-device-info_1.0.0/usr/share/ankor-device-info/main.py:149 | exactly two digits whose value is the number |
| `Decimal.NatToStringRoundTrip` | build/deb/ankor-device-info_1.0.0/usr/share/ankor-device-info/main.py:149 | the digits read back give the number |
| `Decimal.CanonicalRoundTrip` | build/deb/ankor-device-info_1.0.0/usr/share/ankor-device-info/main.py:149 | a canonical digit string is the text of its own value |
| `AsciiText.TrimStart` | build/deb/ankor-device-info_1.0.0/usr/share/ankor-device-info/main.py:771 | a suffix of the text behind whitespace only, starting with a non-space |
| `AsciiText.TrimEnd` | build/deb/ankor-device-info_1.0.0/usr/share/ankor-device-info/main.py:771 | a prefix of the text before whitespace only, ending with a non-space |
| `AsciiText.Strip` | build/deb/ankor-device-info_1.0.0/usr/share/ankor-device-info/main.py:771 | no whitespace at either end of the result; empty exactly when the text is all whitespace |
| `AsciiText.StripIsInnerSlice` | build/deb/ankor-device-info_1.0.0/usr/share/ankor-device-info/main.py:771 | the result is the part of the text between a whitespace-only prefix and a whitespace-only suffix |
| `AsciiText.Lower` | build/deb/ankor-device-info_1.0.0/usr/share/ankor-device-info/main.py:771 | the same length, each character lower-cased |
| `AsciiText.StripIgnoresPadding` | build/deb/ankor-device-info_1.0.0/usr/share/ankor-device-info/main.py:771 | whitespace added at either end does not change the stripped text |
| `AsciiText.StripLowerCommute` | build/deb/ankor-device-info_1.0.0/usr/share/ankor-device-info/main.py:771 | stripping and lower-casing commute |
| `Sampling.IsWindows` | build/deb/ankor-device-info_1.0.0/usr/share/ankor-device-info/main.py:181 | true exactly when the first three characters, lower-cased, are w, i, n |
| `Sampling.WithTrailingBackslash` | build/deb/ankor-device-info_1.0.0/usr/share/ankor-device-info/main.py:183-184 | ends in a backslash, extends the drive by at most that one character, unchanged when one is already there |
| `Sampling.WithTrailingBackslashIdempotent` | build/deb/ankor-device-info_1.0.0/usr/share/ankor-device-info/main.py:183-184 | adding the backslash twice is adding it once |
| `Sampling.DetectDiskMount` | build/deb/ankor-device-info_1.0.0/usr/share/ankor-device-info/main.py:179-186 | on Windows exactly the system drive (default "C:") with a backslash added unless it already ends in one, so it ends in a backslash and starts with the drive; elsewhere "/" |
| `Sampling.DetectDiskMountStable` | build/deb/ankor-device-info_1.0.0/usr/share/ankor-device-info/main.py:179-186 | resolving from an already resolved drive gives the same mount |
| `Sampling.DefaultDriveIsC` | build/deb/ankor-device-info_1.0.0/usr/share/ankor-device-info/main.py:182-184 | without `SystemDrive`, Windows resolves to "C:\" |
| `Sampling.ToGb` | build/deb/ankor-device-info_1.0.0/usr/share/ankor-device-info/main.py:188-190 | the result times 1024^3 is the byte count |
| `Sampling.OneGibibyteIsOneGb` | build/deb/ankor-device-info_1.0.0/usr/share/ankor-device-info/main.py:190 | 1073741824 bytes is 1.0 GB |
| `Sampling.ReadCpuFrequency` | build/deb/ankor-device-info_1.0.0/usr/share/ankor-device-info/main.py:192-200 | present exactly when the query answers a frequency, and then that frequency |
| `Sampling.ReadDiskUsage` | build/deb/ankor-device-info_1.0.0/usr/share/ankor-device-info/main.py:173-177 | the resolved mount's usage when its query answers, else the answer of the retry on "/"; absent only when both raise |
| `Sampling.StableDisksFallBackToRoot` | build/deb/ankor-device-info_1.0.0/usr/share/ankor-device-info/main.py:173-177 | when the readable mounts do not change between the two calls: the resolved mount when readable, else "/", absent only when neither is readable |
| `Sampling.SystemSampler.constructor` | build/deb/ankor-device-info_1.0.0/usr/share/ankor-device-info/main.py:124-128 | baseline counters and time as read, a fresh probe available iff its initialisation succeeded, the disk mount resolved once |
| `Sampling.SystemSampler.Sample` | build/deb/ankor-device-info_1.0.0/usr/share/ankor-device-info/main.py:131-168 | fails exactly when memory, swap or both disk queries fail, then with the baseline unchanged; otherwise every snapshot field from its source, the rates against the old baseline, and the baseline replaced by the readings just taken |
| `Sampling.SystemSampler.Shutdown` | build/deb/ankor-device-info_1.0.0/usr/share/ankor-device-info/main.py:170-171 | the probe is unavailable afterwards; a repeated call changes nothing |
| `Sampling.TwoSamplesTwoSecondsApart` | build/deb/ankor-device-info_1.0.0/usr/share/ankor-device-info/main.py:140-146 | the second of two samples two seconds and 2048 received bytes apart reports 1024 B/s |
| `Sampling.NoGpuMeansNoGpuFields` | build/deb/ankor-device-info_1.0.0/usr/share/ankor-device-info/main.py:150-167 | with a failed GPU initialisation, every snapshot of every later sample has no GPU name, usage or temperature |
| `MonitorHelpers.ProgressColor` | build/deb/ankor-device-info_1.0.0/usr/share/ankor-device-info/main.py:743-749 | red iff the value is at least 90, amber iff it is in [75, 90), green iff below 75 |
| `MonitorHelpers.ColorMonotone` | build/deb/ankor-device-info_1.0.0/usr/share/ankor-device-info/main.py:743-749 | a larger value never gets a milder colour |
| `MonitorHelpers.FormatRate` | build/deb/ankor-device-info_1.0.0/usr/share/ankor-device-info/main.py:751-763 | amount times unit size is the rate; the amount stays below 1024 except in GB/s and is at least 1 except in B/s |
| `MonitorHelpers.RateUnitBands` | build/deb/ankor-device-info_1.0.0/usr/share/ankor-device-info/main.py:757-763 | B/s below 1024, KB/s below 1024^2, MB/s below 1024^3, GB/s from there on |
| `MonitorHelpers.AsBool` | build/deb/ankor-device-info_1.0.0/usr/share/ankor-device-info/main.py:765-771 | the default for a missing value, a flag unchanged, otherwise true exactly for the stripped, lower-cased words 1, true, yes, on |
| `MonitorHelpers.DefaultOnlyForMissing` | build/deb/ankor-device-info_1.0.0/usr/share/ankor-device-info/main.py:767-768 | the default influences the result only for a missing value |
| `MonitorHelpers.AsBoolIgnoresPadding` | build/deb/ankor-device-info_1.0.0/usr/share/ankor-device-info/main.py:771 | whitespace around stored text does not change the flag |
| `MonitorHelpers.AsBoolIgnoresCase` | build/deb/ankor-device-info_1.0.0/usr/share/ankor-device-info/main.py:771 | letter case of stored text does not change the flag |
| `MonitorHelpers.PaddedYesIsTrue` | build/deb/ankor-device-info_1.0.0/usr/share/ankor-device-info/main.py:771 | " Yes " reads as true |
| `MonitorHelpers.OffIsFalse` | build/deb/ankor-device-info_1.0.0/usr/share/ankor-device-info/main.py:771 | "off" reads as false |
| `MonitorHelpers.ClampProgress` | build/deb/ankor-device-info_1.0.0/usr/share/ankor-device-info/main.py:716 | within the bar's [minimum, maximum], and the value itself when it already fits; below the minimum it is the minimum, above the maximum it is the maximum, and for an inverted range (maximum below minimum) it is always the minimum |
| `MonitorHelpers.ClampIdempotent` | build/deb/ankor-device-info_1.0.0/usr/share/ankor-device-info/main.py:716 | clamping a clamped value changes nothing |

## Left out

- The Qt user interface is not modelled: binding import, windows, layout, stylesheets, timer, settings persistence, overlay dragging and `closeEvent`. It is windowing, not logic.
- The psutil and pynvml calls are not modelled. Their answers are inputs, and so are the failures of the pynvml calls, of the CPU temperature and frequency queries, and of the memory, swap and disk queries.
- Wall-clock and monotonic time are inputs. `psutil.cpu_percent` is too, and its priming call at construction has no observable effect in the model.
- `Sampling.SystemSampler.constructor`: the baseline `net_io_counters` read and the priming `cpu_percent` call are taken to succeed. In the program a raise in either one escapes `__init__`, so no sampler is created; the model has no such failure.
- `Sampling.SystemSampler.Sample`: only the memory, swap and disk queries may fail. A raising `cpu_percent`, `net_io_counters`, `time` or `boot_time` call is not modelled.
- `NvidiaGpu.NvidiaMonitor.constructor`: the device name arrives as text. Decoding a byte name as UTF-8 with replacement is not modelled.
- `MonitorHelpers.FormatRate`: only the unit and the scaled amount are modelled, not the `:.0f`, `:.1f` and `:.2f` text. That text depends on IEEE-754 rounding and on Python's formatting.
- `MonitorHelpers.ClampProgress`: takes the already rounded integer. `int(round(value))` is float rounding and is not modelled.
- Floating point is modelled as exact `real`. NaN, infinities and rounding of the divisions are not captured.
- `AsciiText.Strip`: only ASCII whitespace is handled, and `AsciiText.Lower` handles only ASCII letters. Python's `strip` and `lower` follow Unicode.
- `MonitorHelpers.AsBool`: a stored value that is neither missing nor a bool is given by its `str()` text. How other types render is not modelled.
- `CpuTemperature`: the sensor dictionary is a list of items in the dictionary's iteration order. Unique keys are not enforced, and a lookup takes the first group with the name.
- The root `main.py` is not part of this model. It only adjusts the module path and starts a module that is not included.
