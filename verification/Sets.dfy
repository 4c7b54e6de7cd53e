/** Counting members of finite sets. */
module Sets {
  lemma Without<T>(a: set<T>, t: T)
    ensures |a| == |a - {t}| + if t in a then 1 else 0
  {
    if t !in a { assert a - {t} == a; }
  }
}
