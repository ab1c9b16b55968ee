/** The display strings the monitor writes into its readings. */
module Units {

  /** Placeholder shown for a reading no source could provide. */
  const NotAvailable: string := "N/A"

  /** Suffix appended to a temperature reading. */
  const DegreesCelsius: string := "°C"

  /** Suffix appended to a utilization reading. */
  const PercentSign: string := "%"

  /** Delay, in milliseconds, before the next sampling tick is run. */
  const TickIntervalMs: nat := 2000

}
