/**
 * The `while current_start < end_time` walk both fetchers use to cut a time
 * range into request-sized sub-windows, and the response an exchange gives
 * for one sub-window.
 */
module Paging {

  datatype Window = Window(lo: int, hi: int)

  /** What one request returns: rows, or a failure (a non-200 status or a raised exception). */
  datatype Response<T> = Ok(rows: seq<T>) | Failed

  function Min(a: int, b: int): int
  {
    if a <= b then a else b
  }

  /** The sub-windows `[current_start, min(current_start + step, end_time))` in walk order. */
  function Windows(lo: int, hi: int, step: nat): seq<Window>
    requires step > 0
    decreases hi - lo
  {
    if lo < hi then
      var next := Min(lo + step, hi);
      [Window(lo, next)] + Windows(next, hi, step)
    else []
  }

  /**
   * The sub-windows tile the range: the first starts at `lo`, each starts where
   * the previous ended, each is non-empty and at most `step` long (all but the
   * last exactly `step`), the last ends at `hi`, and an empty range gives none.
   */
  lemma {:induction false} WindowsTile(lo: int, hi: int, step: nat)
    requires step > 0
    ensures var ws := Windows(lo, hi, step);
      && (lo >= hi <==> ws == [])
      && (lo < hi ==> ws[0].lo == lo && ws[|ws| - 1].hi == hi)
      && (forall i :: 0 <= i < |ws| ==> ws[i].lo < ws[i].hi <= ws[i].lo + step)
      && (forall i :: 0 <= i < |ws| - 1 ==> ws[i].hi == ws[i + 1].lo && ws[i].hi - ws[i].lo == step)
    decreases hi - lo
  {
    if lo < hi {
      var next := Min(lo + step, hi);
      WindowsTile(next, hi, step);
      var ws := Windows(lo, hi, step);
      assert ws[1..] == Windows(next, hi, step);
      assert forall i :: 1 <= i < |ws| ==> ws[i] == ws[1..][i - 1];
    }
  }

  /** A range of length `n` needs the least number of sub-windows that covers it: `(k - 1) * step < n <= k * step`. */
  lemma {:induction false} WindowsCount(lo: int, hi: int, step: nat)
    requires step > 0 && lo < hi
    ensures var k := |Windows(lo, hi, step)|;
      (k - 1) * step < hi - lo <= k * step
    decreases hi - lo
  {
    var next := Min(lo + step, hi);
    if next < hi {
      WindowsCount(next, hi, step);
      var k' := |Windows(next, hi, step)|;
      assert (k' + 1) * step == k' * step + step;
    }
  }
}
