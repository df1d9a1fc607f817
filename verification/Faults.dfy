/** What the environment may do to one call the driver makes. */
module Faults {
  // Fine lets the call through, Lost drops it, Late lets it take effect and then
  // reports an error.
  datatype Fault = Fine | Lost | Late
}
