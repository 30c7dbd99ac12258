/**
 * Two facts about concatenation, stated once so that proofs composing lists
 * of calls or of records can use them without sequence extensionality.
 * They state nothing about the script; they exist only to keep verification
 * time down.
 */
module Sequences {

  lemma ConcatAssociative<T>(a: seq<T>, b: seq<T>, c: seq<T>)
    ensures (a + b) + c == a + (b + c)
  {
  }

  lemma ConcatEmptyLeft<T>(a: seq<T>)
    ensures [] + a == a
  {
  }
}
