/** What every module needs of options, maps, sets and products. */
module Wrappers {

  datatype Option<+T> = None | Some(value: T)

  function Get<K, V>(m: map<K, V>, k: K): Option<V> {
    if k in m then Some(m[k]) else None
  }

  lemma Split<T>(big: set<T>, part: set<T>)
    requires part <= big
    ensures |big| == |part| + |big - part|
  {
  }

  lemma TimesAtLeast(d: int, b: int)
    requires d >= 1 && b > 0
    ensures d * b >= b
  {
    assert (d - 1) * b >= 0;
  }
}
