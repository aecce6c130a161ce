/** Failure-compatible results and the few facts about sequences that several components share. */
module Common {

  datatype Option<+T> = None | Some(value: T)

  datatype Result<+T, +E> = Ok(value: T) | Err(error: E)

  /** True iff no two positions of `s` hold the same element. */
  ghost predicate NoDuplicates<T>(s: seq<T>) {
    forall i, j :: 0 <= i < j < |s| ==> s[i] != s[j]
  }

  lemma FrontAndLast<T>(s: seq<T>)
    requires s != []
    ensures s == s[..|s| - 1] + [s[|s| - 1]]
  {
  }

  lemma Regroup<T>(a: seq<T>, b: seq<T>, c: seq<T>)
    ensures a + b + c == a + (b + c)
  {
  }

  /** How a call ends for its caller; `Lost` took effect but the caller sees an error, `NotRun` had no effect. */
  datatype CallEnd = Answered | Lost | NotRun

  /** The largest integer up to which every integer is a number of its own. */
  const HIGHEST_SAFE_INTEGER: nat := 9_007_199_254_740_991

  /** Milliseconds within the range of dates. */
  predicate InDateRange(t: int) {
    -8_640_000_000_000_000 <= t <= 8_640_000_000_000_000
  }

  type Time = t: int | InDateRange(t) witness 0
}
