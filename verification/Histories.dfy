/** Histories in which each entry is judged by what came before it. */
module Histories {
  ghost predicate Each<T>(judged: (seq<T>, T) -> bool, log: seq<T>) {
    forall k :: 0 <= k < |log| ==> judged(log[..k], log[k])
  }

  lemma {:induction false} Append<T>(judged: (seq<T>, T) -> bool, log: seq<T>, n: T)
    requires Each(judged, log) && judged(log, n)
    ensures Each(judged, log + [n])
  {
    forall k | 0 <= k < |log + [n]| ensures judged((log + [n])[..k], (log + [n])[k]) {
      assert (log + [n])[..k] == if k < |log| then log[..k] else log;
    }
  }
}
