/** The one datatype, and the facts about sequences, that several components use. */
module Base {
  datatype Option<+T> = None | Some(value: T)

  lemma MoveBracket<T>(a: seq<T>, b: seq<T>, c: seq<T>)
    ensures a + (b + c) == (a + b) + c
  {
  }

  lemma SliceOfTail<T>(s: seq<T>, from: nat, n: nat)
    requires from + n <= |s|
    ensures s[from..from + n] == s[from..][..n]
  {
  }
}
