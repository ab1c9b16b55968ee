/**
  CPU temperature lookup (`SystemMonitor.get_cpu_temperature`). The temperature sensors
  are read through psutil; here the outcome of that read is an input: either the call
  raised, or it returned its sensor groups in iteration order, each a group name with the
  readings of its entries already rendered with one decimal.
 */
module CpuSensors {

  import opened Wrappers
  import opened Text
  import opened Units

  /** One group of `psutil.sensors_temperatures()`: its name and the rendered current
      reading of each of its entries, in order. */
  datatype SensorGroup = SensorGroup(name: string, readings: seq<string>)

  /** The outcome of the sensor read. */
  datatype SensorQuery = QueryRaised | Groups(groups: seq<SensorGroup>)

  /** A group name that suggests a CPU origin (case-insensitive "cpu" or "core"). */
  predicate IsCpuName(name: string)
  {
    Contains(Lower(name), "cpu") || Contains(Lower(name), "core")
  }

  /** A group the search can return from: a CPU-like name and at least one entry. */
  predicate Qualifies(g: SensorGroup)
  {
    IsCpuName(g.name) && |g.readings| > 0
  }

  /** The index of the first qualifying group at or after `from`, or None. */
  function FirstCpuGroup(groups: seq<SensorGroup>, from: nat): (r: Option<nat>)
    decreases |groups| - from
    ensures r.Some? ==> from <= r.value < |groups| && Qualifies(groups[r.value])
    ensures r.Some? ==> forall j | from <= j < r.value :: !Qualifies(groups[j])
    ensures r.None? ==> forall j | from <= j < |groups| :: !Qualifies(groups[j])
  {
    if from >= |groups| then None
    else if Qualifies(groups[from]) then Some(from)
    else FirstCpuGroup(groups, from + 1)
  }

  /** `get_cpu_temperature`: the first reading of the first group whose name looks like a
      CPU, with the degree suffix; "N/A" when the read raised or no group qualifies. */
  function CpuTemperature(q: SensorQuery): (r: string)
    ensures q.QueryRaised? ==> r == NotAvailable
    ensures q.Groups? && (forall j | 0 <= j < |q.groups| :: !Qualifies(q.groups[j])) ==> r == NotAvailable
    ensures q.Groups? ==>
      forall i | 0 <= i < |q.groups| && Qualifies(q.groups[i]) && (forall j | 0 <= j < i :: !Qualifies(q.groups[j])) ::
        r == q.groups[i].readings[0] + DegreesCelsius
  {
    match q
    case QueryRaised => NotAvailable
    case Groups(groups) =>
      match FirstCpuGroup(groups, 0)
      case None => NotAvailable
      case Some(i) => groups[i].readings[0] + DegreesCelsius
  }

  /** A group the search cannot return from (its name mentions neither "cpu" nor "core", or it
      has no entries) never affects the result, wherever it stands: removing it changes nothing. */
  lemma {:induction false} NonQualifyingGroupIrrelevant(before: seq<SensorGroup>, g: SensorGroup, after: seq<SensorGroup>)
    requires !Qualifies(g)
    ensures CpuTemperature(Groups(before + [g] + after)) == CpuTemperature(Groups(before + after))
  {
    var whole := before + [g] + after;
    var without := before + after;
    match FirstCpuGroup(without, 0)
    case None =>
      forall j | 0 <= j < |whole|
        ensures !Qualifies(whole[j])
      {
        if j < |before| { assert whole[j] == without[j]; }
        else if j > |before| { assert whole[j] == without[j - 1]; }
      }
    case Some(i) =>
      var k := if i < |before| then i else i + 1;
      assert whole[k] == without[i];
      forall j | 0 <= j < k
        ensures !Qualifies(whole[j])
      {
        if j < |before| { assert whole[j] == without[j]; }
        else if j > |before| { assert whole[j] == without[j - 1]; }
      }
  }
}
