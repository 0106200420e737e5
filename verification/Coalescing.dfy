/**
 The coalescing relation shared by the Service event queue and the watch
 debouncer: an output keeps its input in order and leaves out only elements that
 the very next input element supersedes.
 */
module Coalescing {

  /** An element of a pipeline. Adjacent elements with equal tags may be merged. */
  datatype Item<K, V> = Item(tag: K, body: V)

  /** The element at `n` is directly followed by one with the same tag. */
  ghost predicate Superseded<K, V>(input: seq<Item<K, V>>, n: nat)
  {
    n + 1 < |input| && input[n].tag == input[n + 1].tag
  }

  /** `keep` lists, in order, the input positions that survive in `output`. */
  ghost predicate KeptBy<K, V>(input: seq<Item<K, V>>, output: seq<Item<K, V>>, keep: seq<nat>)
  {
    && |keep| == |output|
    && (forall i :: 0 <= i < |keep| ==> keep[i] < |input| && output[i] == input[keep[i]])
    && (forall i, j :: 0 <= i < j < |keep| ==> keep[i] < keep[j])
    && (forall n :: 0 <= n < |input| && n !in keep ==> Superseded(input, n))
  }

  ghost predicate Coalesced<K, V>(input: seq<Item<K, V>>, output: seq<Item<K, V>>)
  {
    exists keep: seq<nat> :: KeptBy(input, output, keep)
  }

  /** Nothing is left to merge. */
  ghost predicate DistinctNeighbours<K, V>(items: seq<Item<K, V>>)
  {
    forall i, j :: 0 <= i && j == i + 1 && j < |items| ==> items[i].tag != items[j].tag
  }

  lemma CoalescedNothing<K, V>()
    ensures Coalesced<K, V>([], [])
  {
    assert KeptBy<K, V>([], [], []);
  }

  lemma CoalescedAppend<K, V>(input: seq<Item<K, V>>, output: seq<Item<K, V>>, next: Item<K, V>)
    requires Coalesced(input, output)
    ensures Coalesced(input + [next], output + [next])
  {
    var keep: seq<nat> :| KeptBy(input, output, keep);
    var keep' := keep + [|input|];
    forall n | 0 <= n < |input + [next]| && n !in keep'
      ensures Superseded(input + [next], n)
    {
      assert |input| == keep'[|keep|];
      assert n !in keep && Superseded(input, n);
    }
    assert KeptBy(input + [next], output + [next], keep');
  }

  /** The newest input element always survives, as the last output element. */
  lemma NewestKept<K, V>(input: seq<Item<K, V>>, output: seq<Item<K, V>>)
    requires Coalesced(input, output)
    ensures input == [] <==> output == []
    ensures input != [] ==> output[|output| - 1] == input[|input| - 1]
  {
    var keep: seq<nat> :| KeptBy(input, output, keep);
    if output != [] {
      assert keep[0] < |input|;
    }
    if input != [] {
      assert !Superseded(input, |input| - 1);
      assert |input| - 1 in keep;
      assert forall i :: 0 <= i < |keep| ==> keep[i] <= keep[|keep| - 1] < |input|;
    }
  }

  /** Replacing the last output element by a newer one with the same tag. */
  lemma CoalescedReplace<K, V>(input: seq<Item<K, V>>, output: seq<Item<K, V>>, next: Item<K, V>)
    requires Coalesced(input, output)
    requires output != [] && output[|output| - 1].tag == next.tag
    ensures Coalesced(input + [next], output[..|output| - 1] + [next])
  {
    var keep: seq<nat> :| KeptBy(input, output, keep);
    NewestKept(input, output);
    var last := |keep| - 1;
    var input', keep' := input + [next], keep[..last] + [|input|];
    assert |input| - 1 in keep;
    assert keep[last] == |input| - 1;
    forall n | 0 <= n < |input'| && n !in keep'
      ensures Superseded(input', n)
    {
      assert keep'[last] == |input|;
      if n != |input| - 1 {
        assert n !in keep && Superseded(input, n);
      }
    }
    assert KeptBy(input', output[..last] + [next], keep');
  }

  /** Nothing at all is left out of an input whose neighbours differ. */
  lemma NothingMerged<K, V>(input: seq<Item<K, V>>, output: seq<Item<K, V>>)
    requires Coalesced(input, output) && DistinctNeighbours(input)
    ensures output == input
  {
    var keep: seq<nat> :| KeptBy(input, output, keep);
    assert forall n :: 0 <= n < |input| ==> !Superseded(input, n);
    CountsUp(keep, |input|);
  }

  /** An increasing list of all numbers below `n` counts them up. */
  lemma {:induction false} CountsUp(keep: seq<nat>, n: nat)
    requires (forall i, j :: 0 <= i < j < |keep| ==> keep[i] < keep[j])
    requires (forall i :: 0 <= i < |keep| ==> keep[i] < n) && forall k :: 0 <= k < n ==> k in keep
    ensures |keep| == n && forall i :: 0 <= i < n ==> keep[i] == i
  {
    if keep == [] {
      assert n > 0 ==> 0 in keep;
    } else {
      var last := |keep| - 1;
      assert keep[last] < n && n - 1 in keep;
      assert forall i :: 0 <= i < |keep| ==> keep[i] <= keep[last];
      assert keep[last] == n - 1;
      forall k | 0 <= k < n - 1 ensures k in keep[..last] {
        assert k in keep;
      }
      CountsUp(keep[..last], n - 1);
    }
  }

  /** Nothing is duplicated: an output is never longer than its input. */
  lemma NothingDuplicated<K, V>(input: seq<Item<K, V>>, output: seq<Item<K, V>>)
    requires Coalesced(input, output)
    ensures |output| <= |input|
  {
    var keep: seq<nat> :| KeptBy(input, output, keep);
    Increasing(keep);
  }

  lemma {:induction false} Increasing(keep: seq<nat>)
    requires forall i, j :: 0 <= i < j < |keep| ==> keep[i] < keep[j]
    ensures keep != [] ==> keep[|keep| - 1] >= |keep| - 1
  {
    if |keep| <= 1 {
      assert keep != [] ==> keep[0] >= 0;
    } else {
      Increasing(keep[..|keep| - 1]);
    }
  }
}
