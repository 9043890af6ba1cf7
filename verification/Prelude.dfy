/** Shared vocabulary: optional values, results, bytes, and a few facts about finite sets. */
module Prelude {

  datatype Option<+T> = None | Some(value: T)

  datatype Result<+T, +E> = Ok(value: T) | Err(error: E)

  type Byte = b: int | 0 <= b < 256

  type Bytes = seq<Byte>

  function Max(a: int, b: int): (r: int)
    ensures r >= a && r >= b && (r == a || r == b)
  {
    if a < b then b else a
  }

  lemma {:induction false} SubsetSize<T>(small: set<T>, big: set<T>)
    requires small <= big
    ensures |small| <= |big|
    decreases small
  {
    if small != {} {
      var x :| x in small;
      SubsetSize(small - {x}, big - {x});
    }
  }

  /** A set of the same size as one that contains it is that set. */
  lemma SubsetOfSameSize<T>(small: set<T>, big: set<T>)
    requires small <= big && |small| == |big|
    ensures small == big
  {
    if x :| x in big && x !in small {
      SubsetSize(small, big - {x});
    }
  }

  /** A map that is injective on `keys` and lands in `values` shows there are at least as many values as keys. */
  lemma {:induction false} InjectionSize<A, B>(keys: set<A>, image: map<A, B>, values: set<B>)
    requires keys <= image.Keys
    requires forall k :: k in keys ==> image[k] in values
    requires forall j, k :: j in keys && k in keys && j != k ==> image[j] != image[k]
    ensures |keys| <= |values|
    decreases keys
  {
    if keys != {} {
      var x :| x in keys;
      InjectionSize(keys - {x}, image, values - {image[x]});
    }
  }
}
