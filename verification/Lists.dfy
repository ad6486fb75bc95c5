/** What lists have in common, wherever they are used. */
module Lists {
  ghost predicate NoRepeats<T(!new)>(l: seq<T>)
  {
    forall i, j | 0 <= i < j < |l| :: l[i] != l[j]
  }
}
