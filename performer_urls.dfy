/**
 * Reading a performer id out of a URL, as both plugins do: the regular expressions
 * `/\/performers\/(\d+)/` (card links) and `/\/performers\/(\d+)\//` (the current page),
 * and `url.split('/')` keeping the last piece.
 */
module PerformerUrls {
  import opened Wrappers
  import opened Text

  const PerformersSegment: string := "/performers/"

  /** What the trailing part of the pattern demands after the digits. */
  function Tail(needSlash: bool): string {
    if needSlash then "/" else ""
  }

  /**
   * The capture of the pattern when a match starts at position `i`. `\d+` is greedy, and
   * giving digits back cannot help because the next character would then be a digit, not `/`.
   */
  function MatchAt(url: string, i: nat, needSlash: bool): (r: Option<string>)
    ensures r.Some? ==> r.value != [] && AllDigits(r.value)
    ensures r.Some? ==> OccursAt(url, PerformersSegment + r.value + Tail(needSlash), i)
    ensures r.Some? ==> var after := i + |PerformersSegment| + |r.value|;
                        after < |url| ==> !IsDigit(url[after])
  {
    if !OccursAt(url, PerformersSegment, i) then None
    else
      var d := DigitPrefix(url[i + |PerformersSegment|..]);
      var after := i + |PerformersSegment| + |d|;
      if d == [] then None
      else if needSlash && !(after < |url| && url[after] == '/') then None
      else
        assert url[i..i + |PerformersSegment|] == PerformersSegment;
        assert url[i + |PerformersSegment|..after] == d;
        assert url[i..after] == PerformersSegment + d;
        assert needSlash ==> url[i..after + 1] == PerformersSegment + d + "/";
        Some(d)
  }

  /** `url.match(pattern)?.[1]`: the capture of the leftmost match at or after `i`. */
  function FirstMatch(url: string, i: nat, needSlash: bool): (r: Option<string>)
    ensures r.Some? ==> r.value != [] && AllDigits(r.value)
    decreases |url| - i
  {
    if i > |url| then None
    else match MatchAt(url, i, needSlash)
      case Some(d) => Some(d)
      case None => FirstMatch(url, i + 1, needSlash)
  }

  /** The capture comes from the leftmost position where the pattern matches; no match, no capture. */
  lemma FirstMatchLeftmost(url: string, i: nat, needSlash: bool)
    ensures var r := FirstMatch(url, i, needSlash);
            (r.None? ==> forall k :: i <= k <= |url| ==> MatchAt(url, k, needSlash).None?) &&
            (r.Some? ==> exists k :: i <= k <= |url| && MatchAt(url, k, needSlash) == r &&
                                     forall j :: i <= j < k ==> MatchAt(url, j, needSlash).None?)
  {
    if FirstMatch(url, i, needSlash).None? {
      FirstMatchNone(url, i, needSlash);
    } else {
      var k := FirstMatchSome(url, i, needSlash);
    }
  }

  lemma {:induction false} FirstMatchNone(url: string, i: nat, needSlash: bool)
    requires FirstMatch(url, i, needSlash).None?
    ensures forall k :: i <= k <= |url| ==> MatchAt(url, k, needSlash).None?
    decreases |url| - i
  {
    if i <= |url| {
      FirstMatchNone(url, i + 1, needSlash);
      forall k | i <= k <= |url| ensures MatchAt(url, k, needSlash).None? {
        if k == i {
          assert FirstMatch(url, i, needSlash) == (match MatchAt(url, i, needSlash)
            case Some(d) => Some(d)
            case None => FirstMatch(url, i + 1, needSlash));
        }
      }
    }
  }

  lemma {:induction false} FirstMatchSome(url: string, i: nat, needSlash: bool) returns (k: nat)
    requires FirstMatch(url, i, needSlash).Some?
    ensures i <= k <= |url| && MatchAt(url, k, needSlash) == FirstMatch(url, i, needSlash)
    ensures forall j :: i <= j < k ==> MatchAt(url, j, needSlash).None?
    decreases |url| - i
  {
    if MatchAt(url, i, needSlash).Some? {
      k := i;
    } else {
      k := FirstMatchSome(url, i + 1, needSlash);
      forall j | i <= j < k ensures MatchAt(url, j, needSlash).None? {
      }
    }
  }

  /** The id in a performer card's link: `/\/performers\/(\d+)/`. */
  function PerformerIdFromHref(href: string): Option<string> {
    FirstMatch(href, 0, false)
  }

  /** `getPerformerIDFromURL`: `/\/performers\/(\d+)\//` on the page address, else `null`. */
  function PerformerIdFromUrl(url: string): Option<string> {
    FirstMatch(url, 0, true)
  }

  /**
   * `getPerformerID`: the last element of `url.split('/')`. The three clauses determine it:
   * the longest suffix without a slash.
   */
  function LastSegment(url: string): (r: string)
    ensures '/' !in r
    ensures |r| <= |url| && url[|url| - |r|..] == r
    ensures |r| < |url| ==> url[|url| - |r| - 1] == '/'
  {
    if url == [] || url[|url| - 1] == '/' then []
    else LastSegment(url[..|url| - 1]) + [url[|url| - 1]]
  }

  /** The id is empty exactly when the URL is empty or ends with a slash. */
  lemma LastSegmentEmpty(url: string)
    ensures LastSegment(url) == [] <==> (url == [] || url[|url| - 1] == '/')
  {
  }

  /** Where a right click happened, as the `contextmenu` handler tells it apart. */
  datatype ClickTarget = OnCard(linkHref: string) | OnHeaderImage | Elsewhere

  /**
   * The performer whose menu the right click opens, `None` when no menu opens: a card uses
   * the last segment of its link, the detail header image the page address.
   */
  function MenuPerformerId(target: ClickTarget, pageUrl: string): (r: Option<string>)
    ensures r.Some? ==> r.value != []
    ensures target.Elsewhere? ==> r.None?
    ensures target.OnCard? ==> r.Some? ==> '/' !in r.value
    ensures target.OnHeaderImage? ==> r.Some? ==> AllDigits(r.value)
  {
    match target
    case OnCard(href) =>
      var id := LastSegment(href);
      if id != [] then Some(id) else None
    case OnHeaderImage => PerformerIdFromUrl(pageUrl)
    case Elsewhere => None
  }
}
