/** Small facts about sequences that the loops over slices need. */
module Sequences {

  /** Taking one more element of `s` extends the prefix by that element. */
  lemma TakeOneMore<T>(s: seq<T>, i: nat)
    requires i < |s|
    ensures s[..i + 1] == s[..i] + [s[i]]
  {
  }
}
