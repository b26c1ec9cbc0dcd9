/** Cutting a list into batches of bounded size. */
module Batching {

  function Flatten<T>(bs: seq<seq<T>>): seq<T> {
    if bs == [] then [] else bs[0] + Flatten(bs[1..])
  }

  lemma {:induction false} FlattenAppend<T>(bs: seq<seq<T>>, b: seq<T>)
    ensures Flatten(bs + [b]) == Flatten(bs) + b
  {
    if bs == [] {
      assert Flatten([b]) == b;
      assert [] + [b] == [b];
    } else {
      assert (bs + [b])[1..] == bs[1..] + [b];
      FlattenAppend(bs[1..], b);
    }
  }

  /** chunkStrings and chunkPairs. A bound that is not positive means no cutting. */
  method Chunk<T>(ss: seq<T>, n: int) returns (out: seq<seq<T>>)
    ensures Flatten(out) == ss
    ensures n <= 0 || |ss| <= n ==> out == [ss]
    ensures n > 0 ==> forall i :: 0 <= i < |out| ==> |out[i]| <= n
    ensures n > 0 ==> forall i :: 0 <= i < |out| - 1 ==> |out[i]| == n
    ensures ss != [] ==> forall i :: 0 <= i < |out| ==> out[i] != []
  {
    if n <= 0 || |ss| <= n {
      assert Flatten([ss]) == ss;
      return [ss];
    }
    out := [];
    var i := 0;
    while i < |ss|
      invariant 0 <= i
      invariant Flatten(out) == ss[..if i <= |ss| then i else |ss|]
      invariant forall k :: 0 <= k < |out| ==> 0 < |out[k]| <= n
      invariant i <= |ss| ==> forall k :: 0 <= k < |out| ==> |out[k]| == n
      invariant forall k :: 0 <= k < |out| - 1 ==> |out[k]| == n
    {
      var j := i + n;
      if j > |ss| {
        j := |ss|;
      }
      FlattenAppend(out, ss[i..j]);
      assert ss[..i] + ss[i..j] == ss[..j];
      out := out + [ss[i..j]];
      i := i + n;
    }
    assert ss[..|ss|] == ss;
  }
}
