/**
 * The gap-limit rule for picking the receive index of a new trade: issue the
 * account's next receive index while it is fewer than 19 ahead of the last
 * used one; otherwise reuse the nearest index below it, among the 19 before
 * it, that some trade already holds, or fail with `gap_limit`.
 */
module GapLimit {
  import opened Wrappers

  /** How far the next receive index may run ahead of the last used one. */
  const MaxGap: int := 19

  /** How many indices below the next receive index are searched for reuse. */
  const Lookback: int := 19

  /** Some trade of the registry holds receive index `i`. */
  predicate IndexHeld(held: seq<Option<int>>, i: int)
  {
    Some(i) in held
  }

  /** `receiveIndexes.filter(Helpers.eq(i))`: the entries equal to `i`, one per trade holding it. */
  function Matches(held: seq<Option<int>>, i: int): (m: seq<Option<int>>)
    ensures |m| <= |held|
    ensures forall k :: 0 <= k < |m| ==> m[k] == Some(i)
  {
    if held == [] then []
    else (if held[0] == Some(i) then [held[0]] else []) + Matches(held[1..], i)
  }

  /** The loop's test `filter(eq(i)).length > 0` holds exactly when index `i` is held. */
  lemma {:induction false} IndexHeldIffMatches(held: seq<Option<int>>, i: int)
    ensures IndexHeld(held, i) <==> |Matches(held, i)| > 0
  {
    if held != [] {
      IndexHeldIffMatches(held[1..], i);
      assert held == [held[0]] + held[1..];
    }
  }

  /**
   * Scanning down from `i` to just above `stop`: the first index some trade
   * holds, which is the largest held index in `(stop, i]`.
   */
  function ScanDown(held: seq<Option<int>>, i: int, stop: int): (r: Option<int>)
    ensures r.Some? ==> stop < r.value <= i && IndexHeld(held, r.value)
    ensures r.Some? ==> forall j :: r.value < j <= i ==> !IndexHeld(held, j)
    ensures r.None? ==> forall j :: stop < j <= i ==> !IndexHeld(held, j)
    decreases i - stop
  {
    if i <= stop then None
    else if IndexHeld(held, i) then Some(i)
    else ScanDown(held, i - 1, stop)
  }

  /**
   * `findLastExchangeIndex(current)`: the indices from `current - 1` down to
   * `current - 19` are tried in turn and the first one a trade holds is
   * returned; `None` (JavaScript `null`) when no trade holds any of them.
   */
  method FindLastExchangeIndex(held: seq<Option<int>>, currentReceiveIndex: int) returns (r: Option<int>)
    ensures r == ScanDown(held, currentReceiveIndex - 1, currentReceiveIndex - Lookback - 1)
  {
    var index := currentReceiveIndex;
    var i := index - 1;
    while i > index - 20
      invariant index - 20 <= i <= index - 1
      invariant ScanDown(held, index - 1, index - 20) == ScanDown(held, i, index - 20)
      decreases i - (index - 20)
    {
      IndexHeldIffMatches(held, i);
      if |Matches(held, i)| > 0 {
        return Some(i);
      }
      i := i - 1;
    }
    return None;
  }

  /**
   * The receive index `reserveReceiveAddress` picks, given the account's next
   * receive index, its last used receive index and the receive indices the
   * trades hold; `None` is the `gap_limit` error.
   */
  function ReserveIndex(receiveIndex: int, lastUsedReceiveIndex: int, held: seq<Option<int>>): (r: Option<int>)
    ensures receiveIndex - lastUsedReceiveIndex < MaxGap ==> r == Some(receiveIndex)
    ensures receiveIndex - lastUsedReceiveIndex >= MaxGap && r.Some? ==>
      && receiveIndex - Lookback <= r.value < receiveIndex
      && IndexHeld(held, r.value)
      && forall j :: r.value < j < receiveIndex ==> !IndexHeld(held, j)
    ensures receiveIndex - lastUsedReceiveIndex >= MaxGap ==>
      (r.None? <==> forall j :: receiveIndex - Lookback <= j < receiveIndex ==> !IndexHeld(held, j))
  {
    if receiveIndex - lastUsedReceiveIndex >= MaxGap then
      ScanDown(held, receiveIndex - 1, receiveIndex - Lookback - 1)
    else
      Some(receiveIndex)
  }

  /**
   * The nearest held index wins: past the gap limit, an index in the window
   * that a trade holds, with no held index between it and the next receive
   * index, is exactly the one reserved.
   */
  lemma NearestHeldIndexIsReserved(receiveIndex: int, lastUsedReceiveIndex: int, held: seq<Option<int>>, i: int)
    requires receiveIndex - lastUsedReceiveIndex >= MaxGap
    requires receiveIndex - Lookback <= i < receiveIndex && IndexHeld(held, i)
    requires forall j :: i < j < receiveIndex ==> !IndexHeld(held, j)
    ensures ReserveIndex(receiveIndex, lastUsedReceiveIndex, held) == Some(i)
  {
  }

  /**
   * An older held index loses to a nearer one: with trades on both
   * `receiveIndex - 3` and `receiveIndex - 10` and none on the two indices
   * just below the next receive index, `receiveIndex - 3` is reserved.
   */
  lemma NearestWinsOverOldest(receiveIndex: int, lastUsedReceiveIndex: int, held: seq<Option<int>>)
    requires receiveIndex - lastUsedReceiveIndex >= MaxGap
    requires IndexHeld(held, receiveIndex - 3) && IndexHeld(held, receiveIndex - 10)
    requires !IndexHeld(held, receiveIndex - 1) && !IndexHeld(held, receiveIndex - 2)
    ensures ReserveIndex(receiveIndex, lastUsedReceiveIndex, held) == Some(receiveIndex - 3)
  {
  }

  /**
   * Indices outside the window do not help: a trade holding
   * `receiveIndex - 20` (or any lower index) or the next receive index itself
   * does not prevent the `gap_limit` error.
   */
  lemma OnlyWindowCounts(receiveIndex: int, lastUsedReceiveIndex: int, held: seq<Option<int>>)
    requires receiveIndex - lastUsedReceiveIndex >= MaxGap
    requires forall k :: 0 <= k < |held| && held[k].Some? ==>
      held[k].value < receiveIndex - Lookback || held[k].value >= receiveIndex
    ensures ReserveIndex(receiveIndex, lastUsedReceiveIndex, held) == None
  {
  }
}
