/**
  The `SystemMonitor` object: the cached readings of the last sampling tick, the popup
  window and its visibility flag, and the `monitoring` flag that keeps ticks coming.
  The tkinter event loop, the hotkey thread and the psutil/subprocess/WMI calls are
  outside the model: a tick receives what those calls returned as a `Sample`, and
  reports whether it asks the event loop for another tick.
 */
module Monitor {

  import opened Wrappers
  import opened Units
  import CpuSensors
  import GpuResolver

  /** The cached fields cpu_percent, cpu_temp, memory_percent, gpu_temp, gpu_usage. */
  datatype Readings = Readings(cpuPercent: real, cpuTemp: string, memoryPercent: real, gpuTemp: string, gpuUsage: string)

  /** The cached fields as the constructor sets them. */
  const InitialReadings := Readings(0.0, NotAvailable, 0.0, NotAvailable, NotAvailable)

  /** What the external calls of one tick returned. `cpuPercent` and `memoryPercent` are
      None when `psutil.cpu_percent` or `psutil.virtual_memory` raised. */
  datatype Sample = Sample(
    cpuPercent: Option<real>,
    cpuSensors: CpuSensors.SensorQuery,
    memoryPercent: Option<real>,
    smi: GpuResolver.SmiRun,
    wmi: GpuResolver.WmiQuery,
    counter: GpuResolver.CounterRun)

  /** The cached readings after one tick of `update_system_info`. The reads run in order
      inside one `try`: a psutil call that raises abandons the rest of the tick, so the
      fields it would have set, and every later one, keep their old values. */
  function Tick(old_: Readings, s: Sample): Readings
  {
    match s.cpuPercent
    case None => old_
    case Some(cpu) =>
      var r := old_.(cpuPercent := cpu, cpuTemp := CpuSensors.CpuTemperature(s.cpuSensors));
      match s.memoryPercent
      case None => r
      case Some(memory) =>
        var gpu := GpuResolver.GpuInfo(s.smi, s.wmi, s.counter);
        r.(memoryPercent := memory, gpuTemp := gpu.temp, gpuUsage := gpu.usage)
  }

  /** The tick reached the popup refresh: neither psutil call raised. */
  predicate Completes(s: Sample)
  {
    s.cpuPercent.Some? && s.memoryPercent.Some?
  }

  /** A tick whose reads all succeed replaces every cached field, so the result does not
      depend on the old readings; a tick whose first read raises keeps them all, and one
      whose memory read raises changes only the two CPU fields. */
  lemma TickOverwritesOrKeeps(r1: Readings, r2: Readings, s: Sample)
    ensures Completes(s) ==> Tick(r1, s) == Tick(r2, s)
    ensures s.cpuPercent.None? ==> Tick(r1, s) == r1
    ensures s.cpuPercent.Some? && s.memoryPercent.None? ==>
      Tick(r1, s).(cpuPercent := r1.cpuPercent, cpuTemp := r1.cpuTemp) == r1
  {
  }

  /** What the popup's labels show: the placeholder texts they are created with, or the
      readings written by the last `update_popup_content`. */
  datatype Display = Placeholder | Showing(readings: Readings)

  /** The popup window (a tkinter Toplevel). Its layout is not modelled. */
  class Popup {
    var display: Display
    var destroyed: bool

    constructor ()
      ensures display == Placeholder && !destroyed
    {
      display := Placeholder;
      destroyed := false;
    }

    /** The label updates of `update_popup_content`. */
    method Render(r: Readings)
      modifies this
      ensures display == Showing(r) && destroyed == old(destroyed)
    {
      display := Showing(r);
    }

    /** `destroy()`. */
    method Destroy()
      modifies this
      ensures destroyed && display == old(display)
    {
      destroyed := true;
    }
  }

  class SystemMonitor {
    var popupWindow: Popup?
    var isPopupVisible: bool
    var monitoring: bool

    var cpuPercent: real
    var cpuTemp: string
    var gpuTemp: string
    var gpuUsage: string
    var memoryPercent: real

    /** The flag and the window stay in step: visible exactly when a live window exists. */
    ghost predicate Valid()
      reads this, popupWindow
    {
      (isPopupVisible <==> popupWindow != null)
      && (popupWindow != null ==> !popupWindow.destroyed)
    }

    function Cached(): Readings
      reads this
    {
      Readings(cpuPercent, cpuTemp, memoryPercent, gpuTemp, gpuUsage)
    }

    /** `__init__`: hidden, monitoring, and the first tick run at once. */
    constructor (first: Sample)
      ensures Valid() && !isPopupVisible && popupWindow == null && monitoring
      ensures Cached() == Tick(InitialReadings, first)
    {
      popupWindow := null;
      isPopupVisible := false;
      monitoring := true;
      cpuPercent, cpuTemp, gpuTemp, gpuUsage, memoryPercent := 0.0, NotAvailable, NotAvailable, NotAvailable, 0.0;
      new;
      var _ := UpdateSystemInfo(first);
    }

    /** `update_system_info`: sample, refresh the popup if it is visible, and ask for the
        next tick, `TickIntervalMs` later, exactly while monitoring (None: no tick asked).
        Sampling happens whether or not the popup is visible. */
    method UpdateSystemInfo(s: Sample) returns (nextTickIn: Option<nat>)
      requires Valid()
      modifies this, popupWindow
      ensures Valid()
      ensures Cached() == Tick(old(Cached()), s)
      ensures nextTickIn == if monitoring then Some(TickIntervalMs) else None
      ensures monitoring == old(monitoring) && isPopupVisible == old(isPopupVisible) && popupWindow == old(popupWindow)
      ensures popupWindow != null ==>
        popupWindow.display == (if Completes(s) then Showing(Cached()) else old(popupWindow.display))
    {
      ReadSensors(s);
      if Completes(s) && isPopupVisible && popupWindow != null {
        UpdatePopupContent();
      }
      nextTickIn := if monitoring then Some(TickIntervalMs) else None;
    }

    /** The reads of one tick, in the order of the `try` block of `update_system_info`; a
        psutil call that raises ends the block there. */
    method ReadSensors(s: Sample)
      modifies this`cpuPercent, this`cpuTemp, this`memoryPercent, this`gpuTemp, this`gpuUsage
      ensures Cached() == Tick(old(Cached()), s)
    {
      match s.cpuPercent {
        case None =>
        case Some(cpu) =>
          cpuPercent := cpu;
          cpuTemp := CpuSensors.CpuTemperature(s.cpuSensors);
          match s.memoryPercent {
            case None =>
            case Some(memory) =>
              memoryPercent := memory;
              gpuTemp, gpuUsage := GpuResolver.GetGpuInfo(s.smi, s.wmi, s.counter);
          }
      }
    }

    /** `update_popup_content`: writes the cached readings into a visible popup; when the
        popup is hidden or absent it changes nothing. */
    method UpdatePopupContent()
      modifies popupWindow
      ensures popupWindow != null && isPopupVisible ==>
        popupWindow.display == Showing(Cached()) && popupWindow.destroyed == old(popupWindow.destroyed)
      ensures popupWindow != null && !isPopupVisible ==> unchanged(popupWindow)
    {
      if popupWindow == null || !isPopupVisible {
        return;
      }
      popupWindow.Render(Cached());
    }

    /** `create_popup`: a new window when there is none (its layout is not modelled),
        followed by `update_popup_content`. */
    method CreatePopup()
      modifies this
      ensures old(popupWindow) != null ==> unchanged(this)
      ensures old(popupWindow) == null ==> fresh(popupWindow) && !popupWindow.destroyed
      ensures old(popupWindow) == null ==>
        popupWindow.display == (if isPopupVisible then Showing(Cached()) else Placeholder)
      ensures isPopupVisible == old(isPopupVisible) && monitoring == old(monitoring) && Cached() == old(Cached())
    {
      if popupWindow != null {
        return;
      }
      popupWindow := new Popup();
      UpdatePopupContent();
    }

    /** `show_popup` as written: the flag is set only after `create_popup` returns, so the
        update inside `create_popup` finds the popup hidden and the labels keep their
        placeholder texts until the next tick. */
    method ShowPopupAsWritten()
      requires Valid()
      modifies this
      ensures Valid() && isPopupVisible
      ensures old(isPopupVisible) ==> unchanged(this)
      ensures !old(isPopupVisible) ==> fresh(popupWindow) && popupWindow.display == Placeholder
      ensures monitoring == old(monitoring) && Cached() == old(Cached())
    {
      if !isPopupVisible {
        CreatePopup();
        isPopupVisible := true;
      }
    }

    /** `show_popup` with the flag set before `create_popup`, so that the new window shows
        the cached readings at once. */
    method ShowPopup()
      requires Valid()
      modifies this
      ensures Valid() && isPopupVisible
      ensures old(isPopupVisible) ==> unchanged(this)
      ensures !old(isPopupVisible) ==> fresh(popupWindow) && popupWindow.display == Showing(Cached())
      ensures monitoring == old(monitoring) && Cached() == old(Cached())
    {
      if !isPopupVisible {
        isPopupVisible := true;
        CreatePopup();
      }
    }

    /** `hide_popup` (also the close button and the window's close request): destroys and
        drops a visible window; when already hidden it changes nothing. */
    method HidePopup()
      requires Valid()
      modifies this, popupWindow
      ensures Valid() && !isPopupVisible && popupWindow == null
      ensures old(isPopupVisible) ==> old(popupWindow).destroyed
      ensures !old(isPopupVisible) ==> unchanged(this)
      ensures monitoring == old(monitoring) && Cached() == old(Cached())
    {
      if isPopupVisible && popupWindow != null {
        popupWindow.Destroy();
        popupWindow := null;
        isPopupVisible := false;
      }
    }

    /** `_toggle_popup_main_thread`: hide when visible, show when hidden. Showing goes
        through `show_popup` as written, so a newly opened window shows the placeholder
        labels until the next tick. */
    method TogglePopup()
      requires Valid()
      modifies this, popupWindow
      ensures Valid() && isPopupVisible == !old(isPopupVisible)
      ensures isPopupVisible ==> fresh(popupWindow) && popupWindow.display == Placeholder
      ensures !isPopupVisible ==> old(popupWindow).destroyed
      ensures monitoring == old(monitoring) && Cached() == old(Cached())
    {
      if isPopupVisible {
        HidePopup();
      } else {
        ShowPopupAsWritten();
      }
    }

    /** The toggle with the corrected `ShowPopup`: a newly opened window shows the cached
        readings at once. */
    method TogglePopupCorrected()
      requires Valid()
      modifies this, popupWindow
      ensures Valid() && isPopupVisible == !old(isPopupVisible)
      ensures isPopupVisible ==> fresh(popupWindow) && popupWindow.display == Showing(Cached())
      ensures !isPopupVisible ==> old(popupWindow).destroyed
      ensures monitoring == old(monitoring) && Cached() == old(Cached())
    {
      if isPopupVisible {
        HidePopup();
      } else {
        ShowPopup();
      }
    }

    /** `shutdown`: stop monitoring and hide the popup. Unhooking the keyboard and
        quitting the event loop are not modelled. */
    method Shutdown()
      requires Valid()
      modifies this, popupWindow
      ensures Valid() && !monitoring && !isPopupVisible && popupWindow == null
      ensures old(isPopupVisible) ==> old(popupWindow).destroyed
      ensures Cached() == old(Cached())
    {
      monitoring := false;
      HidePopup();
    }
  }

  /** Two toggles restore the visibility, the monitoring flag and the readings. */
  method ToggleTwice(m: SystemMonitor)
    requires m.Valid()
    modifies m, m.popupWindow
    ensures m.Valid()
    ensures m.isPopupVisible == old(m.isPopupVisible) && (m.popupWindow == null) == (old(m.popupWindow) == null)
    ensures m.monitoring == old(m.monitoring) && m.Cached() == old(m.Cached())
  {
    m.TogglePopup();
    m.TogglePopup();
  }

  /** After shutdown, a tick still running samples but asks for no further tick. */
  method TickAfterShutdown(m: SystemMonitor, s: Sample) returns (nextTickIn: Option<nat>)
    requires m.Valid()
    modifies m, m.popupWindow
    ensures nextTickIn == None && !m.isPopupVisible && m.popupWindow == null
  {
    m.Shutdown();
    nextTickIn := m.UpdateSystemInfo(s);
  }

  /** The popup as `show_popup` leaves it on a freshly started monitor whose first tick read
      a CPU load of 37%: as written it shows the placeholder labels, corrected it shows
      the cached readings. */
  method FirstShowDisplay() returns (asWritten: Display, corrected: Display, cached: Readings)
    ensures asWritten == Placeholder
    ensures corrected == Showing(cached) && cached.cpuPercent == 37.0
  {
    var first := Sample(Some(37.0), CpuSensors.QueryRaised, None,
                        GpuResolver.SmiMissing, GpuResolver.WmiUnavailable, GpuResolver.CounterRaised);
    var m1 := new SystemMonitor(first);
    m1.ShowPopupAsWritten();
    asWritten := m1.popupWindow.display;
    var m2 := new SystemMonitor(first);
    m2.ShowPopup();
    corrected := m2.popupWindow.display;
    cached := m2.Cached();
  }
}
