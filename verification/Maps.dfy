module Maps {

  /** A non-empty map has a key. */
  lemma AnyKey<K, V>(m: map<K, V>) returns (k: K)
    requires |m| > 0
    ensures k in m
  {
    assert |m.Keys| == |m|;
    k :| k in m.Keys;
  }
}
