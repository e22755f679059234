/**
 * Remote calls made one after another in a Python loop (`task.start()`,
 * `ee.data.cancelTask`, `ee.data.deleteAsset`). Whether a call goes through
 * is an input; the first call that raises ends the loop, and the calls made
 * before it stay made.
 */
module Remote {
  import opened Wrappers

  /** The calls that went through, in order, and the call that raised, if any. */
  datatype Calls<T> = Calls(done: seq<T>, raised: Option<T>)

  /** Making `calls` in order until the first one that `succeeds` rejects. */
  function UntilRaise<T>(calls: seq<T>, succeeds: T -> bool): (r: Calls<T>)
    ensures |r.done| <= |calls| && r.done == calls[..|r.done|]
    ensures forall k :: 0 <= k < |r.done| ==> succeeds(r.done[k])
    ensures r.raised.None? <==> forall k :: 0 <= k < |calls| ==> succeeds(calls[k])
    ensures r.raised.None? ==> r.done == calls
    ensures r.raised.Some? ==> |r.done| < |calls| && r.raised.value == calls[|r.done|] && !succeeds(r.raised.value)
  {
    if calls == [] then Calls([], None)
    else if !succeeds(calls[0]) then Calls([], Some(calls[0]))
    else
      var rest := UntilRaise(calls[1..], succeeds);
      assert calls == [calls[0]] + calls[1..];
      Calls([calls[0]] + rest.done, rest.raised)
  }

  /** The loop itself: one call per element, stopping at the first that raises. */
  method CallEach<T>(calls: seq<T>, succeeds: T -> bool) returns (r: Calls<T>)
    ensures r == UntilRaise(calls, succeeds)
  {
    var done: seq<T> := [];
    for k := 0 to |calls|
      invariant done == calls[..k]
      invariant forall j :: 0 <= j < k ==> succeeds(calls[j])
    {
      if !succeeds(calls[k]) {
        UntilRaiseAt(calls, succeeds, k);
        return Calls(done, Some(calls[k]));
      }
      done := done + [calls[k]];
    }
    assert calls[..|calls|] == calls;
    UntilRaiseAt(calls, succeeds, |calls|);
    return Calls(done, None);
  }

  /**
   * When the first `k` calls go through and the next one (if any) raises,
   * the loop has made exactly the first `k` calls.
   */
  lemma UntilRaiseAt<T>(calls: seq<T>, succeeds: T -> bool, k: nat)
    requires k <= |calls|
    requires forall j :: 0 <= j < k ==> succeeds(calls[j])
    requires k < |calls| ==> !succeeds(calls[k])
    ensures UntilRaise(calls, succeeds) == Calls(calls[..k], if k < |calls| then Some(calls[k]) else None)
  {
    var r := UntilRaise(calls, succeeds);
    assert |r.done| == k;
  }
}
