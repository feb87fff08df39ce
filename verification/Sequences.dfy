/** Stock facts about sequences. */
module Sequences {

  datatype Option<T> = None | Some(value: T)

  /** `buffer` with `data` written at `offset`. */
  function Splice<T>(buffer: seq<T>, offset: nat, data: seq<T>): (r: seq<T>)
    requires offset + |data| <= |buffer|
    ensures |r| == |buffer|
    ensures forall i :: 0 <= i < |r| ==>
              r[i] == if offset <= i < offset + |data| then data[i - offset] else buffer[i]
  {
    buffer[..offset] + data + buffer[offset + |data|..]
  }

  /** Where the first `x` is, or the length. */
  function IndexOf<T(==)>(s: seq<T>, x: T): (k: nat)
    ensures k <= |s|
    ensures k < |s| ==> s[k] == x
    ensures forall i :: 0 <= i < k ==> s[i] != x
  {
    if s == [] then 0 else if s[0] == x then 0 else 1 + IndexOf(s[1..], x)
  }

  lemma {:induction false} IndexOfIs<T>(s: seq<T>, x: T, k: nat)
    requires k <= |s| && (forall i :: 0 <= i < k ==> s[i] != x) && (k < |s| ==> s[k] == x)
    ensures IndexOf(s, x) == k
  {
  }

  lemma {:induction false} AroundOne<T>(s: seq<T>, k: nat)
    requires k < |s|
    ensures s == s[..k] + [s[k]] + s[k + 1..]
    ensures s[..k + 1] == s[..k] + [s[k]]
  {
  }

  lemma {:induction false} Associates<T>(a: seq<T>, b: seq<T>, c: seq<T>)
    ensures a + b + c == a + (b + c)
  {
  }
}
