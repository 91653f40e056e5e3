/** Lists gathered place by place, and where each of their elements came from. */
module Gathering {
  function GatherUpTo<T>(k: nat, here: nat -> seq<T>): seq<T> {
    if k == 0 then [] else GatherUpTo(k - 1, here) + here(k - 1)
  }

  /** `ks` says, in order, which of the first `k` places gave the elements of `out`. */
  ghost predicate From<T>(out: seq<T>, ks: seq<nat>, k: nat, here: nat -> seq<T>) {
    && |ks| == |out| && (forall i, j :: 0 <= i < j < |ks| ==> ks[i] < ks[j])
    && (forall i :: 0 <= i < |ks| ==> ks[i] < k && here(ks[i]) == [out[i]])
    && (forall n: nat :: n < k && here(n) != [] ==> n in ks)
  }

  lemma GatherOne<T>(out: seq<T>, ks: seq<nat>, k: nat, here: nat -> seq<T>, x: T)
    requires From(out, ks, k, here) && here(k) == [x]
    ensures From(out + [x], ks + [k], k + 1, here)
  {
    var all := ks + [k];
    assert forall i :: 0 <= i < |ks| ==> all[i] == ks[i];
    forall n: nat | n < k + 1 && here(n) != []
      ensures n in all
    {
      if n < k {
        assert n in ks;
      }
    }
  }

  lemma {:induction false} Gather<T>(k: nat, here: nat -> seq<T>) returns (ks: seq<nat>)
    requires forall n: nat :: n < k ==> |here(n)| <= 1
    ensures From(GatherUpTo(k, here), ks, k, here)
  {
    if k == 0 {
      ks := [];
    } else {
      ks := Gather(k - 1, here);
      var last := here(k - 1);
      if last == [] {
        assert GatherUpTo(k - 1, here) + last == GatherUpTo(k - 1, here);
      } else {
        assert last == [last[0]];
        GatherOne(GatherUpTo(k - 1, here), ks, k - 1, here, last[0]);
        ks := ks + [k - 1];
      }
    }
  }
}
