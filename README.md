# System monitor telemetry core, modelled in Dafny

This project models the core of a desktop system monitor (`SystemMonitor` in
`system_monitor.py`). The monitor samples CPU load, CPU temperature, memory load, GPU
load and GPU temperature every two seconds. It shows them in a popup that a hotkey
toggles. Three parts are modelled and proved:

- **GPU resolver** (`get_gpu_info`). This is a fallback chain of three strategies:
  nvidia-smi CSV output, then OpenHardwareMonitor sensors over WMI, then a PowerShell
  performance counter. If all three fail, the result is `("N/A", "N/A")`. Each external
  call is an input value: it either raised or returned its result.
- **CPU temperature search** (`get_cpu_temperature`). It returns the first reading of
  the first sensor group whose name contains "cpu" or "core".
- **The monitor object**. This covers the popup visibility flag and window, the
  `monitoring` flag, the cached readings, and the methods that change them.

Files and modules:

- `wrappers.dfy` (`Wrappers`): `Option`.
- `text.dfy` (`Text`): Python's `strip()`, `split(sep)`, `lower()` and `in` on strings.
- `units.dfy` (`Units`): the "N/A", "°C" and "%" display strings and the 2000 ms tick interval.
- `cpu_sensors.dfy` (`CpuSensors`): the CPU temperature search.
- `gpu_resolver.dfy` (`GpuResolver`): the three GPU strategies and the chain.
- `monitor.dfy` (`Monitor`): the `SystemMonitor` and `Popup` classes.

Some pure functions state no contract of their own: `SmiReading`, `WmiScan`,
`CounterReading`, `GpuInfo` and `Monitor.Tick`. They are the specifications that the
lemmas and methods below are proved against.

Some behaviours of the code differ from what one might expect of a resource monitor. The model follows the code:

- One might expect the first matching WMI sensor to win. The code keeps the **last**
  matching sensor of each kind, because its loop overwrites its two variables on every match.
- One might expect the nvidia-smi fields to be checked as numbers. They are not: any two fields separated by `", "`
  on the first line are accepted.
- A successful WMI connection always ends the chain, even when no sensor matched. In
  that case the result is `("N/A", "N/A")`. The counter strategy runs only when the WMI
  strategy raised.
- If a psutil read raises during a tick, the rest of that tick is abandoned. Fields
  already written keep their new values and the later ones keep their old values.
  The popup is not refreshed, and the next tick is still scheduled.

## Model

| member | source | states |
|---|---|---|
| `Text.Lower` | system_monitor.py:53 | `lower()` on A to Z: same length, no capital letter left, each capital becomes the small letter at the same place in the alphabet, every other character kept |
| `Text.LowerIdempotent` | system_monitor.py:53 | lower-casing twice is lower-casing once |
| `Text.Strip` | system_monitor.py:74 | `strip()`: the input is the result surrounded by whitespace only, and the result neither starts nor ends with whitespace |
| `Text.Split` | system_monitor.py:74-77 | `split(sep)`: at least one piece; exactly one piece iff `sep` does not occur; no piece contains `sep`; joining the pieces with `sep` gives back the input; every cut is at the leftmost occurrence of `sep`, so the pieces are unique even for a separator that overlaps itself |
| `CpuSensors.FirstCpuGroup` | system_monitor.py:51-53 | finds the first group that has an entry and whose lower-cased name contains "cpu" or "core"; no earlier group qualifies; None exactly when no group qualifies |
| `CpuSensors.CpuTemperature` | system_monitor.py:46-57 | "N/A" when the sensor read raised or no group qualifies; otherwise the first entry's reading of the first qualifying group, with "°C" appended |
| `CpuSensors.NonQualifyingGroupIrrelevant` | system_monitor.py:51-54 | a group without entries, or whose name mentions neither "cpu" nor "core", can be removed from any position without changing the result |
| `GpuResolver.FirstLineEmpty` | system_monitor.py:74-75 | the first line of the stripped output is empty exactly when the stripped output is empty |
| `GpuResolver.SmiSuccessRule` | system_monitor.py:73-80 | nvidia-smi yields a reading iff it exited with 0, its stripped output is non-blank, and the first line holds a `", "` (two fields or more) |
| `GpuResolver.SmiRoundTrip` | system_monitor.py:66-80 | for nvidia-smi output rendered from rows whose first row holds plain fields, the result is (first temperature + "°C", first utilization + "%"), whatever the later rows hold |
| `GpuResolver.ScanSensors` | system_monitor.py:89-99 | the sensor loop, which overwrites two variables, computes exactly the scan specification `WmiScan` |
| `GpuResolver.ScanFailsIffRaises` | system_monitor.py:92-101 | the WMI strategy is abandoned exactly when examining some sensor raises |
| `GpuResolver.ScanSelectsLastTemperature` | system_monitor.py:89-99 | when no sensor raises, the temperature is the value of the last GPU sensor whose type contains "temperature", with "°C" appended, and "N/A" when there is none |
| `GpuResolver.ScanSelectsLastLoad` | system_monitor.py:89-99 | when no sensor raises, the utilization is the value of the last GPU sensor whose type contains "load" but not "temperature", with "%" appended, and "N/A" when there is none |
| `GpuResolver.GetGpuInfo` | system_monitor.py:59-121 | the chain as run, strategy after strategy, returns exactly the fallback specification `GpuInfo` |
| `GpuResolver.SmiShortCircuits` | system_monitor.py:73-80 | once nvidia-smi yields a reading, that reading is the result whatever WMI and the counter would return |
| `GpuResolver.WmiConnectedAnswers` | system_monitor.py:85-101 | after nvidia-smi fails, a WMI connection whose sensors all read cleanly decides the result, even ("N/A", "N/A"); the counter is not consulted |
| `GpuResolver.CounterOnlyAfterWmiFails` | system_monitor.py:80-115 | if the counter's outcome can change the result, nvidia-smi failed and WMI was unavailable or raised |
| `GpuResolver.CounterPath` | system_monitor.py:104-115 | on the counter path the temperature is "N/A"; a utilization is reported iff the exit code is 0, the output is non-blank and it parses as a number, and it is then the parsed number with "%" appended |
| `GpuResolver.CounterExample` | system_monitor.py:111-113 | with no nvidia-smi, no sensor service and a counter printing 37.5, the result is ("N/A", "37.5%") |
| `GpuResolver.TotalFailure` | system_monitor.py:117-121 | when all three strategies fail the result is ("N/A", "N/A") |
| `Monitor.TickOverwritesOrKeeps` | system_monitor.py:125-142 | a complete tick does not depend on the old readings; a tick whose CPU read raises keeps them all; a tick whose memory read raises changes only the CPU fields |
| `Monitor.SystemMonitor.constructor` | system_monitor.py:11-28 | starts hidden, with no window, monitoring, and the cached readings of one tick from the initial values |
| `Monitor.SystemMonitor.UpdateSystemInfo` | system_monitor.py:123-146 | cached readings become `Tick(old readings, sample)` whatever the visibility; a visible popup shows them iff the tick completed; the next tick is requested 2000 ms later iff monitoring; visibility and window are unchanged |
| `Monitor.SystemMonitor.ReadSensors` | system_monitor.py:125-135 | the reads of one tick, in order, leave the cached readings at `Tick(old readings, sample)`, and write no other field |
| `Monitor.SystemMonitor.UpdatePopupContent` | system_monitor.py:253-268 | a visible popup shows the cached readings; when hidden or absent nothing changes |
| `Monitor.SystemMonitor.CreatePopup` | system_monitor.py:148-153 | an existing window is kept untouched; otherwise a fresh live window appears, and the update at line 248 gives it the cached readings only if the flag is already set |
| `Monitor.SystemMonitor.ShowPopupAsWritten` | system_monitor.py:277-281 | keeps the visibility invariant and leaves the popup visible; from hidden the new window shows the placeholder labels; when already visible nothing changes |
| `Monitor.SystemMonitor.ShowPopup` | system_monitor.py:277-281 | as above, except that a newly shown window displays the cached readings |
| `Monitor.SystemMonitor.HidePopup` | system_monitor.py:283-288 | keeps the invariant; afterwards hidden with no window, and a previously visible window is destroyed; when already hidden nothing changes |
| `Monitor.SystemMonitor.TogglePopup` | system_monitor.py:295-300 | flips the visibility and keeps the invariant; showing goes through the as-written `show_popup`, so a newly opened window shows the placeholder labels; hiding destroys the old window; readings and monitoring are unchanged |
| `Monitor.SystemMonitor.TogglePopupCorrected` | system_monitor.py:295-300 | the same toggle over the corrected `ShowPopup`: a newly opened window shows the cached readings |
| `Monitor.SystemMonitor.Shutdown` | system_monitor.py:302-305 | monitoring off, popup hidden and its window destroyed, invariant kept |
| `Monitor.ToggleTwice` | system_monitor.py:295-300 | two toggles restore visibility, window presence, monitoring and readings |
| `Monitor.TickAfterShutdown` | system_monitor.py:145-146 | a tick after shutdown requests no further tick |
| `Monitor.FirstShowDisplay` | system_monitor.py:247-248 | on a new monitor whose first tick read 37% CPU, the as-written show displays placeholders, while the corrected one displays the cached readings |

## Left out

- The hotkey thread and the `root.after(0, ...)` hand-over to the UI thread (lines 34-44, 290-293). These are concurrency and OS hooks. A hotkey press is modelled as a direct call of `TogglePopup`.
- The tkinter event loop. `UpdateSystemInfo` returns the delay it asks for, instead of calling `root.after` (line 146).
- Widget construction, layout and label formatting in `create_popup` and `update_popup_content` (lines 154-251, 258-275). The popup's labels are abstracted to `Display`: either the placeholder texts or the readings last written.
- The `datetime` timestamp label (lines 271-272).
- The psutil, subprocess, WMI and PowerShell calls. Their outcomes are input datatypes, and the 5-second timeouts are folded into the "raised" outcomes.
- Float formatting (`:.1f`, `:.0f`) and the `float()` parse. Rendered values are opaque input strings, and the parse is an `Option` input.
- Console output, `keyboard.unhook_all`, `root.quit`, and `main()`, which are process plumbing.
- The outer `try` of `get_gpu_info` (lines 61, 119-121). Only its two imports can raise outside the inner `try` blocks, and these are taken not to raise. The model of the chain is a total function, so it never raises.
- Text.Lower: it lower-cases only A to Z, not Python's full Unicode mapping. For the needles tested here ("gpu", "cpu", "core", "temperature", "load") the containment results are the same. Only U+0130 and U+212A lower to ASCII letters ("i", "k"), and neither letter occurs in those needles.
- The concrete case of nvidia-smi printing `45, 62`, is not stated as a separate lemma. It is an instance of `SmiRoundTrip` with single-row output.

## Findings

| source | as written | input that shows it | evidently intended | confidence | as-written member | corrected member |
|---|---|---|---|---|---|---|
| system_monitor.py:277-281 | `show_popup` sets `is_popup_visible` only after `create_popup` returns, so the update at the end of `create_popup` (line 248) stops at its guard (line 255) | show the popup from hidden after a tick that read 37% CPU: the labels read "Usage: 0%" and "Temp: N/A" until the next tick | a newly shown popup displays the cached readings at once (comment at line 247) | medium; not executed | `Monitor.SystemMonitor.ShowPopupAsWritten`, used by `Monitor.SystemMonitor.TogglePopup` (exhibited by `Monitor.FirstShowDisplay`) | `Monitor.SystemMonitor.ShowPopup`, used by `Monitor.SystemMonitor.TogglePopupCorrected` |
