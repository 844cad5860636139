/**
 * Paging in the right-click plugin's modals (stashRightClickPerformers.js): the missing-scenes
 * modal shows 27 scenes per page and the image-selection modal 40 images per page, with
 * "Previous" and "Next" links carrying the target page in a `data-page` attribute.
 */
module Pagination {
  import opened Wrappers
  import opened JsNumbers

  const ScenesPerPage: nat := 27
  const ImagesPerPage: nat := 40

  function Min(a: int, b: int): int {
    if a <= b then a else b
  }

  /** `Math.ceil(n / per)`. */
  function TotalPages(n: nat, per: nat): (t: nat)
    requires per >= 1
    ensures t * per >= n
    ensures t > 0 ==> (t - 1) * per < n
    ensures t == 0 <==> n == 0
  {
    (n + per - 1) / per
  }

  /** `items.slice(start, end)` for non-negative bounds: clamped to the length, empty if reversed. */
  function Slice<T>(items: seq<T>, start: nat, end: nat): (r: seq<T>)
    ensures |r| == (if start >= end || start >= |items| then 0 else Min(end, |items|) - start)
    ensures forall i :: 0 <= i < |r| ==> r[i] == items[start + i]
  {
    if start >= |items| || start >= end then [] else items[start..Min(end, |items|)]
  }

  /** What `renderScenes(page)` / `renderImages(page)` shows: `slice((page - 1) * per, (page - 1) * per + per)`. */
  function PageItems<T>(items: seq<T>, per: nat, page: nat): (r: seq<T>)
    requires per >= 1 && page >= 1
    ensures |r| <= per
    ensures |r| == (if (page - 1) * per >= |items| then 0 else Min(per, |items| - (page - 1) * per))
    ensures forall i :: 0 <= i < |r| ==> r[i] == items[(page - 1) * per + i]
  {
    var start := (page - 1) * per;
    Slice(items, start, start + per)
  }

  /**
   * Page `page` has items exactly when it is one of the `TotalPages` pages, and every page
   * before the last is full.
   */
  lemma PageSizes<T>(items: seq<T>, per: nat, page: nat)
    requires per >= 1 && page >= 1
    ensures PageItems(items, per, page) != [] <==> page <= TotalPages(|items|, per)
    ensures page < TotalPages(|items|, per) ==> |PageItems(items, per, page)| == per
  {
    var n := |items|;
    var t := TotalPages(n, per);
    var start := (page - 1) * per;
    if page <= t {
      MulLe(page - 1, t - 1, per);
      assert start < n;
    } else {
      MulLe(t, page - 1, per);
      assert start >= n;
    }
    if page < t {
      MulLe(page, t - 1, per);
      assert page * per == start + per;
      assert n - start > per;
    }
  }

  lemma MulLe(a: nat, b: nat, c: nat)
    requires a <= b
    ensures a * c <= b * c
  {
    assert b * c == a * c + (b - a) * c;
  }

  /** Pages `1..k` shown one after another. */
  function Pages<T>(items: seq<T>, per: nat, k: nat): seq<T>
    requires per >= 1
  {
    if k == 0 then [] else Pages(items, per, k - 1) + PageItems(items, per, k)
  }

  lemma {:induction false} PagesPrefix<T>(items: seq<T>, per: nat, k: nat)
    requires per >= 1
    ensures Pages(items, per, k) == items[..Min(k * per, |items|)]
  {
    if k > 0 {
      PagesPrefix(items, per, k - 1);
      var lo := Min((k - 1) * per, |items|);
      var hi := Min(k * per, |items|);
      assert k * per == (k - 1) * per + per;
      var page := PageItems(items, per, k);
      assert page == items[lo..hi];
      assert items[..lo] + items[lo..hi] == items[..hi];
    }
  }

  /** The pages together show every item once, in order. */
  lemma PagesCoverItems<T>(items: seq<T>, per: nat)
    requires per >= 1
    ensures Pages(items, per, TotalPages(|items|, per)) == items
  {
    PagesPrefix(items, per, TotalPages(|items|, per));
  }

  /** The pagination links: their `data-page` values, when present. */
  datatype Controls = Controls(previous: Option<string>, next: Option<string>)

  /** "Previous" to `page - 1` when `page > 1`; "Next" to `page + 1` when `page < totalPages`. */
  function PageControls(page: nat, totalPages: nat): (c: Controls)
    requires page >= 1
    ensures c.previous.Some? <==> page > 1
    ensures c.next.Some? <==> page < totalPages
  {
    Controls(if page > 1 then Some(DecimalString(page - 1)) else None,
             if page < totalPages then Some(DecimalString(page + 1)) else None)
  }

  /**
   * Clicking a link re-renders `parseInt(data-page)`: from any page in `1..max(1, totalPages)`
   * the links lead to the neighbouring pages and never out of that range, so the first page
   * and every page reached by clicking satisfy `PageItems`' requirement.
   */
  lemma NavigationStaysInRange(page: nat, totalPages: nat)
    requires 1 <= page && (page <= totalPages || page == 1)
    ensures var c := PageControls(page, totalPages);
            && (c.previous.Some? ==> ParseInt(c.previous.value) == Some(page - 1) && 1 <= page - 1)
            && (c.next.Some? ==> ParseInt(c.next.value) == Some(page + 1) && page + 1 <= totalPages)
  {
    if page > 1 {
      ParseDecimalString(page - 1, []);
      assert DecimalString(page - 1) + [] == DecimalString(page - 1);
    }
    if page < totalPages {
      ParseDecimalString(page + 1, []);
      assert DecimalString(page + 1) + [] == DecimalString(page + 1);
    }
  }
}
