/**
  GPU reading (`SystemMonitor.get_gpu_info`): an ordered fallback chain of three strategies,
  nvidia-smi, then OpenHardwareMonitor sensors over WMI, then a PowerShell performance
  counter. The external calls are inputs: each datatype below is what one strategy's call
  returned, or that it raised.
 */
module GpuResolver {

  import opened Wrappers
  import opened Text
  import opened Units

  /** The pair `get_gpu_info` returns, in its order: (temperature, utilization). */
  datatype GpuReading = GpuReading(temp: string, usage: string)

  const Unavailable := GpuReading(NotAvailable, NotAvailable)

  // ---------------------------------------------------------------------------
  // Strategy 1: nvidia-smi --query-gpu=utilization.gpu,temperature.gpu --format=csv,noheader,nounits

  /** How the nvidia-smi call ended: not installed, raised (timeout or any other error),
      or exited with a return code and its decoded standard output. */
  datatype SmiRun = SmiMissing | SmiRaised | SmiExited(returncode: int, stdout: string)

  /** `result.stdout.strip().split('\n')[0]`. */
  function FirstLine(stdout: string): string
  {
    Split(Strip(stdout), "\n")[0]
  }

  /** The nvidia-smi strategy: the first output line cut at its `", "` separators; the
      first field is the utilization, the second the temperature. No numeric check is made. */
  function SmiReading(run: SmiRun): Option<GpuReading>
  {
    match run
    case SmiExited(code, stdout) =>
      if code != 0 then None
      else
        var line := FirstLine(stdout);
        if line == "" then None
        else
          var values := Split(line, ", ");
          if |values| < 2 then None
          else Some(GpuReading(Strip(values[1]) + DegreesCelsius, Strip(values[0]) + PercentSign))
    case _ => None
  }

  /** The first line is empty exactly when the whole stripped output is. */
  lemma FirstLineEmpty(stdout: string)
    ensures FirstLine(stdout) == "" <==> Strip(stdout) == ""
  {
    var t := Strip(stdout);
    var lines := Split(t, "\n");
    if t == "" {
      SplitWithout(t, "\n");
    } else if |lines| > 1 {
      assert t == lines[0] + "\n" + Join(lines[1..], "\n");
    }
  }

  /** nvidia-smi yields a reading exactly when it exited with 0, its stripped output is not
      blank, and the first line holds at least one `", "` (so it splits into two fields or more). */
  lemma SmiSuccessRule(run: SmiRun)
    ensures SmiReading(run).Some? <==>
      && run.SmiExited?
      && run.returncode == 0
      && Strip(run.stdout) != ""
      && Contains(FirstLine(run.stdout), ", ")
  {
    if run.SmiExited? {
      FirstLineEmpty(run.stdout);
    }
  }

  /** One row of nvidia-smi's CSV output: the utilization and temperature columns. */
  datatype SmiRow = SmiRow(utilization: string, temperature: string)

  /** What nvidia-smi prints for the given rows (one GPU per line, fields joined by `", "`). */
  function RenderSmi(rows: seq<SmiRow>): string
  {
    if rows == [] then "" else rows[0].utilization + ", " + rows[0].temperature + "\n" + RenderSmi(rows[1..])
  }

  /** A column value as nvidia-smi prints it: non-empty, without surrounding whitespace,
      without a newline and without the separator. */
  predicate PlainField(f: string)
  {
    f != "" && Strip(f) == f && !Contains(f, "\n") && !Contains(f, ", ")
  }

  /** A first line that starts and ends with non-space characters survives `strip()` whole,
      whatever follows it. */
  lemma FirstLineOf(line: string, rest: string)
    requires line != "" && !IsSpace(line[0]) && !IsSpace(line[|line| - 1])
    requires !Contains(line, "\n")
    ensures FirstLine(line + "\n" + rest) == line
  {
    var s := line + "\n" + rest;
    StripNoLeadingSpace(s);
    assert s[|line| - 1] == line[|line| - 1];
    FirstLineOfPrefix(line, rest, s[..TrailingStart(s)]);
  }

  /** Two plain fields joined by `", "` split back into exactly those two fields. */
  lemma SplitPlainPair(u: string, t: string)
    requires PlainField(u) && PlainField(t)
    ensures Split(u + ", " + t, ", ") == [u, t]
  {
    SplitCommaSpace(u, t);
    SplitWithout(t, ", ");
  }

  /** A line of two plain fields followed by anything is the first line of the output. */
  lemma PlainLineIsFirst(u: string, t: string, rest: string)
    requires PlainField(u) && PlainField(t)
    ensures FirstLine(u + ", " + t + "\n" + rest) == u + ", " + t
  {
    var line := u + ", " + t;
    ContainsChar(u, '\n');
    ContainsChar(t, '\n');
    ContainsChar(line, '\n');
    assert line[0] == u[0] && line[|line| - 1] == t[|t| - 1];
    FirstLineOf(line, rest);
  }

  /** Reading back what nvidia-smi printed: whatever the later rows hold, the result is the
      first GPU's temperature and utilization with their unit suffixes. */
  lemma SmiRoundTrip(rows: seq<SmiRow>)
    requires |rows| >= 1
    requires PlainField(rows[0].utilization) && PlainField(rows[0].temperature)
    ensures SmiReading(SmiExited(0, RenderSmi(rows)))
      == Some(GpuReading(rows[0].temperature + DegreesCelsius, rows[0].utilization + PercentSign))
  {
    var u, t := rows[0].utilization, rows[0].temperature;
    var stdout := RenderSmi(rows);
    assert stdout == u + ", " + t + "\n" + RenderSmi(rows[1..]);
    PlainLineIsFirst(u, t, RenderSmi(rows[1..]));
    SmiReadsFirstLine(stdout, u, t);
  }

  /** The reading depends only on the first line: two plain fields there give their values. */
  lemma SmiReadsFirstLine(stdout: string, u: string, t: string)
    requires PlainField(u) && PlainField(t)
    requires FirstLine(stdout) == u + ", " + t
    ensures SmiReading(SmiExited(0, stdout)) == Some(GpuReading(t + DegreesCelsius, u + PercentSign))
  {
    SplitPlainPair(u, t);
  }

  /** A non-empty run of decimal digits is a plain field. */
  lemma DigitsArePlain(f: string)
    requires f != "" && forall i | 0 <= i < |f| :: '0' <= f[i] <= '9'
    ensures PlainField(f)
  {
    StripNoLeadingSpace(f);
    assert TrailingStart(f) == |f|;
    ContainsChar(f, '\n');
    forall i | 0 <= i <= |f| - 2
      ensures !OccursAt(f, ", ", i)
    {
      assert f[i] != ',';
    }
  }

  // ---------------------------------------------------------------------------
  // Strategy 2: OpenHardwareMonitor sensors over WMI

  /** One WMI sensor. Each attribute is None when using it raises: a `Name` or `SensorType`
      that is not a string, or a `Value` that the `:.0f` format rejects; otherwise `value`
      is that rendering. */
  datatype WmiSensor = WmiSensor(name: Option<string>, sensorType: Option<string>, value: Option<string>)

  /** How the WMI query ended: the module, the connection or the query raised, or it
      returned the sensor list in order. */
  datatype WmiQuery = WmiUnavailable | WmiSensors(sensors: seq<WmiSensor>)

  predicate IsGpu(s: WmiSensor)
  {
    s.name.Some? && Contains(Lower(s.name.value), "gpu")
  }

  /** A GPU sensor whose type mentions temperature. */
  predicate IsGpuTemperature(s: WmiSensor)
  {
    IsGpu(s) && s.sensorType.Some? && Contains(Lower(s.sensorType.value), "temperature")
  }

  /** A GPU sensor whose type mentions load and not temperature (the `elif`). */
  predicate IsGpuLoad(s: WmiSensor)
  {
    IsGpu(s) && s.sensorType.Some? && !Contains(Lower(s.sensorType.value), "temperature")
    && Contains(Lower(s.sensorType.value), "load")
  }

  /** Examining this sensor raises, which abandons the WMI strategy. */
  predicate Raises(s: WmiSensor)
  {
    || s.name.None?
    || (IsGpu(s) && s.sensorType.None?)
    || ((IsGpuTemperature(s) || IsGpuLoad(s)) && s.value.None?)
  }

  /** One iteration of the sensor loop on the pair (gpu_temp, gpu_usage); None when it raises. */
  function ScanStep(acc: GpuReading, s: WmiSensor): Option<GpuReading>
  {
    match s.name
    case None => None
    case Some(name) =>
      if !Contains(Lower(name), "gpu") then Some(acc)
      else
        match s.sensorType
        case None => None
        case Some(kind) =>
          if Contains(Lower(kind), "temperature") then
            match s.value
            case None => None
            case Some(v) => Some(acc.(temp := v + DegreesCelsius))
          else if Contains(Lower(kind), "load") then
            match s.value
            case None => None
            case Some(v) => Some(acc.(usage := v + PercentSign))
          else Some(acc)
  }

  /** The sensor loop run over `sensors` from ("N/A", "N/A"); None when some iteration raises. */
  function WmiScan(sensors: seq<WmiSensor>): Option<GpuReading>
    decreases |sensors|
  {
    if sensors == [] then Some(Unavailable)
    else
      match WmiScan(sensors[..|sensors| - 1])
      case None => None
      case Some(acc) => ScanStep(acc, sensors[|sensors| - 1])
  }

  /** Once the loop has raised on a prefix, the whole scan has raised. */
  lemma {:induction false} ScanFailureSticks(sensors: seq<WmiSensor>, k: nat)
    requires k <= |sensors| && WmiScan(sensors[..k]).None?
    ensures WmiScan(sensors).None?
    decreases |sensors| - k
  {
    if k < |sensors| {
      assert sensors[..k + 1][..k] == sensors[..k];
      ScanFailureSticks(sensors, k + 1);
    } else {
      assert sensors[..k] == sensors;
    }
  }

  /** The WMI strategy is abandoned exactly when some sensor raises. */
  lemma {:induction false} ScanFailsIffRaises(sensors: seq<WmiSensor>)
    ensures WmiScan(sensors).None? <==> exists i | 0 <= i < |sensors| :: Raises(sensors[i])
    decreases |sensors|
  {
    if sensors != [] {
      var n := |sensors| - 1;
      var init := sensors[..n];
      ScanFailsIffRaises(init);
      assert forall i | 0 <= i < n :: init[i] == sensors[i];
      match WmiScan(init)
      case None =>
      case Some(acc) =>
        assert ScanStep(acc, sensors[n]).None? <==> Raises(sensors[n]);
    }
  }

  /** One step of the scan on the temp field: it takes this sensor's value when the sensor
      matches, and keeps the accumulated one otherwise. */
  lemma StepTemp(acc: GpuReading, s: WmiSensor)
    requires ScanStep(acc, s).Some?
    ensures IsGpuTemperature(s) ==> s.value.Some? && ScanStep(acc, s).value.temp == s.value.value + DegreesCelsius
    ensures !IsGpuTemperature(s) ==> ScanStep(acc, s).value.temp == acc.temp
  {
  }

  /** Last match wins, for the temperature: when no sensor raises, it is that of the LAST GPU
      sensor whose type mentions temperature, and "N/A" when there is none. */
  lemma {:induction false} ScanSelectsLastTemperature(sensors: seq<WmiSensor>)
    requires WmiScan(sensors).Some?
    ensures forall i | 0 <= i < |sensors| && IsGpuTemperature(sensors[i])
              && (forall j | i < j < |sensors| :: !IsGpuTemperature(sensors[j])) ::
              sensors[i].value.Some? && WmiScan(sensors).value.temp == sensors[i].value.value + DegreesCelsius
    ensures (forall i | 0 <= i < |sensors| :: !IsGpuTemperature(sensors[i])) ==> WmiScan(sensors).value.temp == NotAvailable
    decreases |sensors|
  {
    if sensors != [] {
      var n := |sensors| - 1;
      var init := sensors[..n];
      assert sensors == init + [sensors[n]];
      var acc := WmiScan(init).value;
      ScanSelectsLastTemperature(init);
      StepTemp(acc, sensors[n]);
      forall i | 0 <= i < |sensors| && IsGpuTemperature(sensors[i]) && (forall j | i < j < |sensors| :: !IsGpuTemperature(sensors[j]))
        ensures sensors[i].value.Some? && WmiScan(sensors).value.temp == sensors[i].value.value + DegreesCelsius
      {
        if i < n {
          assert init[i] == sensors[i];
          assert forall j | i < j < n :: init[j] == sensors[j];
        }
      }
      if forall i | 0 <= i < |sensors| :: !IsGpuTemperature(sensors[i]) {
        assert forall i | 0 <= i < n :: init[i] == sensors[i];
      }
    }
  }

  /** One step of the scan on the usage field: it takes this sensor's value when the sensor
      matches, and keeps the accumulated one otherwise. */
  lemma StepUsage(acc: GpuReading, s: WmiSensor)
    requires ScanStep(acc, s).Some?
    ensures IsGpuLoad(s) ==> s.value.Some? && ScanStep(acc, s).value.usage == s.value.value + PercentSign
    ensures !IsGpuLoad(s) ==> ScanStep(acc, s).value.usage == acc.usage
  {
  }

  /** Last match wins, for the utilization: when no sensor raises, it is that of the LAST GPU
      sensor whose type mentions load and not temperature, and "N/A" when there is none. */
  lemma {:induction false} ScanSelectsLastLoad(sensors: seq<WmiSensor>)
    requires WmiScan(sensors).Some?
    ensures forall i | 0 <= i < |sensors| && IsGpuLoad(sensors[i])
              && (forall j | i < j < |sensors| :: !IsGpuLoad(sensors[j])) ::
              sensors[i].value.Some? && WmiScan(sensors).value.usage == sensors[i].value.value + PercentSign
    ensures (forall i | 0 <= i < |sensors| :: !IsGpuLoad(sensors[i])) ==> WmiScan(sensors).value.usage == NotAvailable
    decreases |sensors|
  {
    if sensors != [] {
      var n := |sensors| - 1;
      var init := sensors[..n];
      assert sensors == init + [sensors[n]];
      var acc := WmiScan(init).value;
      ScanSelectsLastLoad(init);
      StepUsage(acc, sensors[n]);
      forall i | 0 <= i < |sensors| && IsGpuLoad(sensors[i]) && (forall j | i < j < |sensors| :: !IsGpuLoad(sensors[j]))
        ensures sensors[i].value.Some? && WmiScan(sensors).value.usage == sensors[i].value.value + PercentSign
      {
        if i < n {
          assert init[i] == sensors[i];
          assert forall j | i < j < n :: init[j] == sensors[j];
        }
      }
      if forall i | 0 <= i < |sensors| :: !IsGpuLoad(sensors[i]) {
        assert forall i | 0 <= i < n :: init[i] == sensors[i];
      }
    }
  }

  /** The WMI strategy: None when the service is unavailable or a sensor raises. */
  function WmiReading(q: WmiQuery): Option<GpuReading>
  {
    match q
    case WmiUnavailable => None
    case WmiSensors(sensors) => WmiScan(sensors)
  }

  /** The sensor loop as the source runs it: two variables overwritten on each match. */
  method ScanSensors(sensors: seq<WmiSensor>) returns (r: Option<GpuReading>)
    ensures r == WmiScan(sensors)
  {
    var gpuTemp, gpuUsage := NotAvailable, NotAvailable;
    for i := 0 to |sensors|
      invariant WmiScan(sensors[..i]) == Some(GpuReading(gpuTemp, gpuUsage))
    {
      assert sensors[..i + 1][..i] == sensors[..i];
      var s := sensors[i];
      if s.name.None? {
        ScanFailureSticks(sensors, i + 1);
        return None;
      }
      if Contains(Lower(s.name.value), "gpu") {
        if s.sensorType.None? {
          ScanFailureSticks(sensors, i + 1);
          return None;
        }
        var kind := Lower(s.sensorType.value);
        if Contains(kind, "temperature") {
          if s.value.None? {
            ScanFailureSticks(sensors, i + 1);
            return None;
          }
          gpuTemp := s.value.value + DegreesCelsius;
        } else if Contains(kind, "load") {
          if s.value.None? {
            ScanFailureSticks(sensors, i + 1);
            return None;
          }
          gpuUsage := s.value.value + PercentSign;
        }
      }
    }
    assert sensors[..|sensors|] == sensors;
    r := Some(GpuReading(gpuTemp, gpuUsage));
  }

  // ---------------------------------------------------------------------------
  // Strategy 3: PowerShell, first sample of the "\GPU Engine(*)\Utilization Percentage" counter

  /** How the PowerShell call ended: raised, or exited with a return code and output; `number`
      is `float(stdout.strip())` rendered with one decimal, or None when that parse raises. */
  datatype CounterRun = CounterRaised | CounterExited(returncode: int, stdout: string, number: Option<string>)

  /** The counter strategy: utilization only, never a temperature. */
  function CounterReading(run: CounterRun): Option<GpuReading>
  {
    match run
    case CounterRaised => None
    case CounterExited(code, stdout, number) =>
      if code == 0 && Strip(stdout) != "" then
        match number
        case None => None
        case Some(v) => Some(GpuReading(NotAvailable, v + PercentSign))
      else None
  }

  // ---------------------------------------------------------------------------
  // The chain

  /** `get_gpu_info`: the first strategy that yields a reading, else ("N/A", "N/A"). */
  function GpuInfo(smi: SmiRun, wmi: WmiQuery, counter: CounterRun): GpuReading
  {
    match SmiReading(smi)
    case Some(r) => r
    case None =>
      match WmiReading(wmi)
      case Some(r) => r
      case None =>
        match CounterReading(counter)
        case Some(r) => r
        case None => Unavailable
  }

  /** The chain as the source runs it, one strategy after the other. */
  method GetGpuInfo(smi: SmiRun, wmi: WmiQuery, counter: CounterRun) returns (temp: string, usage: string)
    ensures GpuReading(temp, usage) == GpuInfo(smi, wmi, counter)
  {
    var fromSmi := SmiReading(smi);
    if fromSmi.Some? {
      return fromSmi.value.temp, fromSmi.value.usage;
    }
    if wmi.WmiSensors? {
      var fromWmi := ScanSensors(wmi.sensors);
      if fromWmi.Some? {
        return fromWmi.value.temp, fromWmi.value.usage;
      }
    }
    var fromCounter := CounterReading(counter);
    if fromCounter.Some? {
      return fromCounter.value.temp, fromCounter.value.usage;
    }
    return NotAvailable, NotAvailable;
  }

  /** When nvidia-smi yields a reading, neither WMI nor the counter is consulted: the result
      is that reading whatever they would have returned. */
  lemma SmiShortCircuits(smi: SmiRun, wmi1: WmiQuery, counter1: CounterRun, wmi2: WmiQuery, counter2: CounterRun)
    requires SmiReading(smi).Some?
    ensures GpuInfo(smi, wmi1, counter1) == GpuInfo(smi, wmi2, counter2) == SmiReading(smi).value
  {
  }

  /** A WMI connection whose sensors can all be examined always answers, even with
      ("N/A", "N/A"): after a failed nvidia-smi the result is the last-match selection and
      the counter is not consulted. */
  lemma WmiConnectedAnswers(smi: SmiRun, sensors: seq<WmiSensor>, counter1: CounterRun, counter2: CounterRun)
    requires SmiReading(smi).None?
    requires forall i | 0 <= i < |sensors| :: !Raises(sensors[i])
    ensures WmiScan(sensors).Some?
    ensures GpuInfo(smi, WmiSensors(sensors), counter1) == GpuInfo(smi, WmiSensors(sensors), counter2)
      == WmiScan(sensors).value
  {
    ScanFailsIffRaises(sensors);
  }

  /** The counter is reached only when nvidia-smi failed and WMI was unavailable or raised:
      if the counter's outcome can change the result, both earlier strategies yielded nothing. */
  lemma CounterOnlyAfterWmiFails(smi: SmiRun, wmi: WmiQuery, counter1: CounterRun, counter2: CounterRun)
    requires GpuInfo(smi, wmi, counter1) != GpuInfo(smi, wmi, counter2)
    ensures SmiReading(smi).None?
    ensures wmi.WmiUnavailable? || exists i | 0 <= i < |wmi.sensors| :: Raises(wmi.sensors[i])
  {
    if wmi.WmiSensors? {
      ScanFailsIffRaises(wmi.sensors);
    }
  }

  /** On the counter path the temperature is always "N/A", and a utilization is reported
      exactly when PowerShell exited with 0 and printed a non-blank number. */
  lemma CounterPath(smi: SmiRun, wmi: WmiQuery, counter: CounterRun)
    requires SmiReading(smi).None? && WmiReading(wmi).None?
    ensures GpuInfo(smi, wmi, counter).temp == NotAvailable
    ensures GpuInfo(smi, wmi, counter).usage != NotAvailable <==>
      counter.CounterExited? && counter.returncode == 0 && Strip(counter.stdout) != "" && counter.number.Some?
    ensures counter.CounterExited? && counter.returncode == 0 && Strip(counter.stdout) != "" && counter.number.Some? ==>
      GpuInfo(smi, wmi, counter).usage == counter.number.value + PercentSign
  {
    if counter.CounterExited? && counter.number.Some? {
      var u := counter.number.value + PercentSign;
      assert u[|u| - 1] == '%';
    }
  }

  /** No nvidia-smi, no sensor service, and a counter printing 37.5: utilization 37.5%, no temperature. */
  lemma CounterExample()
    ensures GpuInfo(SmiMissing, WmiUnavailable, CounterExited(0, "37.5\r\n", Some("37.5"))) == GpuReading("N/A", "37.5%")
  {
    assert !IsSpace("37.5\r\n"[0]);
  }

  /** When every strategy fails the result is ("N/A", "N/A"). */
  lemma TotalFailure(smi: SmiRun, wmi: WmiQuery, counter: CounterRun)
    requires SmiReading(smi).None? && WmiReading(wmi).None? && CounterReading(counter).None?
    ensures GpuInfo(smi, wmi, counter) == GpuReading("N/A", "N/A")
  {
  }
}
