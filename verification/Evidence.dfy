/** Interval evidence of one iperf3 stream, shared by the oracle and the stall analyzer. */
module Evidence {

  /** One reporting interval of one stream: its bounds in seconds and its rate. */
  datatype Interval = Interval(start: real, end: real, bps: real)

  /** A stretch of time, from `start` to `end`. */
  datatype Run = Run(start: real, end: real) {
    function Length(): real { end - start }
  }

  /** The time between the end of an interval's predecessor and its own start. */
  function Hole(s: seq<Interval>, k: nat): real
    requires 1 <= k < |s|
  {
    s[k].start - s[k - 1].end
  }
}
