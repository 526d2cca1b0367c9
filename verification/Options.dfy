// What the protocols share: values that may be absent, counting failures, and
// the ends of sequences.
module Options {
  datatype Option<+T> = None | Some(value: T)

  // What an operation adds to the number of failures.
  function Failures(ok: bool): nat {
    if ok then 0 else 1
  }

  function Front<T>(s: seq<T>): seq<T>
    requires s != []
  {
    s[..|s| - 1]
  }

  function Last<T>(s: seq<T>): T
    requires s != []
  {
    s[|s| - 1]
  }
}
