/**
 * The sensor collaborator that task steps and clue triggers consume.
 * The driver itself is outside this model: a reader is reduced to its
 * stable name, its latest measurement and the number of reads requested.
 */
module Sensors {

  /** A tagged measurement: the tag must be checked before the payload is used. */
  datatype SensorMeasurement =
    | Boolean(value: bool)
    | Numeric(amount: real)
    | Enumerated(index: int)
    | Unknown

  class SensorReader {
    const name: string
    var latest: SensorMeasurement   // what read() currently answers
    var readRequests: nat           // start_read() calls issued so far

    constructor (name: string, initial: SensorMeasurement)
      ensures this.name == name && latest == initial && readRequests == 0
    {
      this.name := name;
      latest := initial;
      readRequests := 0;
    }

    /** Fire-and-forget acquisition request. */
    method StartRead()
      modifies this`readRequests
      ensures readRequests == old(readRequests) + 1
    {
      readRequests := readRequests + 1;
    }

    /** The most recent measurement, possibly stale. */
    function Read(): SensorMeasurement
      reads this
    {
      latest
    }
  }
}
