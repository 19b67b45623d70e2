/**
 * The interface every source implements (src/fetch_data.rs): a title, a
 * retry interval, and a fetch whose outcome the model receives from outside.
 */
module FetchData {

  /** `TaiTime<0>`: nanoseconds on the TAI time scale. */
  type Time = int

  /** `std::time::Duration`, in nanoseconds. */
  type Duration = nat

  function Secs(n: nat): Duration {
    n * 1_000_000_000
  }

  /** A source: what `title()` and `retry_every()` return. */
  datatype Fetcher = Fetcher(title: string, retryEvery: Duration)
}
