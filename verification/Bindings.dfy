/** Maps that differ in one binding. */
module Bindings {

  lemma BindingAdded<K, V>(m: map<K, V>, m': map<K, V>, k: K, v: V)
    requires forall j :: j in m' <==> j in m || j == k
    requires forall j :: j in m' ==> m'[j] == if j == k then v else m[j]
    ensures m' == m[k := v]
  {
  }

  lemma BindingRemoved<K, V>(m: map<K, V>, m': map<K, V>, k: K)
    requires forall j :: j in m' <==> j in m && j != k
    requires forall j :: j in m' ==> m'[j] == m[j]
    ensures m' == m - {k}
  {
  }
}
