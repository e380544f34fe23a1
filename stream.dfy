/** The argument check of the synthetic data stream `simulate_data_stream`
    (main.py:8-41). Producing the values themselves depends on the wall clock
    and on a random draw, so only the argument check is modelled. The function
    is a generator, so the check runs at the first `next()`, before the first
    value is yielded. */
module Stream {
  import opened Results

  /** Accepted stream arguments, in seconds. */
  datatype StreamConfig = StreamConfig(duration: real, interval: real)

  const StreamArgsMessage := "Duration and interval must be positive values."

  /** main.py:22-23: at the first `next()`, a non-positive duration or
      interval raises `ValueError` before any value is yielded; otherwise the
      arguments are accepted unchanged. */
  function CheckStreamArgs(duration: real, interval: real): (r: Result<StreamConfig, ArgError>)
    ensures r.Success? <==> duration > 0.0 && interval > 0.0
    ensures r.Success? ==> r.value == StreamConfig(duration, interval)
    ensures r.Failure? ==> r.error == InvalidArgument(StreamArgsMessage)
  {
    if duration <= 0.0 || interval <= 0.0 then Failure(InvalidArgument(StreamArgsMessage))
    else Success(StreamConfig(duration, interval))
  }
}
