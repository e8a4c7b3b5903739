/**
 * The page, sub-page and gallery parsing of the crawler.
 *
 * HTML selection, JSON decoding and URI parsing are done by libraries in the
 * source; here their outputs are inputs: an element is its attribute map, a
 * gallery item is its type and its `img` elements, a decoded document is the
 * shape of its `items` member, and a URI comes already split into components.
 * Every shuffle takes its random choices as a parameter.
 */
module Parser {
  import opened Wrappers
  import opened Text
  import Rand

  const TotalPages: nat := 282
  const ChiveUrl: string := "https://thechive.com/category/sexy-girls"
  const Marker: string := "CHIVE_GALLERY_ITEMS"

  // ---------------------------------------------------------------------------
  // init_chive_pages
  // ---------------------------------------------------------------------------

  /** The listing URL of page `i` (page 1 has no `/page/` suffix). */
  function PageUrl(i: nat): string
  {
    if i == 1 then ChiveUrl + "/" else ChiveUrl + "/page/" + Decimal(i) + "/"
  }

  /** Pages 1 to 282 in order, before the shuffle. */
  function PageList(): seq<string>
  {
    seq(TotalPages, k requires 0 <= k => PageUrl(k + 1))
  }

  lemma PageUrlInjective(i: nat, j: nat)
    requires 1 <= i && 1 <= j && PageUrl(i) == PageUrl(j)
    ensures i == j
  {
    var p := ChiveUrl + "/page/";
    if i != 1 && j != 1 {
      var u := PageUrl(i);
      assert u == p + Decimal(i) + "/";
      assert u[|p|..|u| - 1] == Decimal(i);
      assert PageUrl(j) == p + Decimal(j) + "/";
      assert u[|p|..|u| - 1] == Decimal(j);
      DecimalInjective(i, j);
    }
  }

  lemma PageListDistinct()
    ensures Rand.Distinct(PageList())
  {
    forall a, b | 0 <= a < b < |PageList()| ensures PageList()[a] != PageList()[b] {
      PageListEntriesDiffer(a, b);
    }
  }

  lemma PageListEntriesDiffer(a: nat, b: nat)
    requires a < b < TotalPages
    ensures PageList()[a] != PageList()[b]
  {
    assert PageList()[a] == PageUrl(a + 1);
    assert PageList()[b] == PageUrl(b + 1);
    if PageUrl(a + 1) == PageUrl(b + 1) {
      PageUrlInjective(a + 1, b + 1);
    }
  }

  /** `init_chive_pages`: the 282 listing pages in an order picked by `choices`. */
  function InitChivePages(choices: seq<nat>): (r: seq<string>)
    ensures |r| == TotalPages && multiset(r) == multiset(PageList())
  {
    Rand.Shuffle(PageList(), choices)
  }

  /** Page 1's URL, or page i's for some i in 2..282. */
  predicate IsListingUrl(u: string)
  {
    u == ChiveUrl + "/" || exists i :: 2 <= i <= TotalPages && u == ChiveUrl + "/page/" + Decimal(i) + "/"
  }

  /** The list holds exactly the listing URLs. */
  lemma PageListMembership(u: string)
    ensures u in PageList() <==> IsListingUrl(u)
  {
    var s := PageList();
    if u == ChiveUrl + "/" {
      assert s[0] == u;
    }
    if exists i :: 2 <= i <= TotalPages && u == ChiveUrl + "/page/" + Decimal(i) + "/" {
      var i :| 2 <= i <= TotalPages && u == ChiveUrl + "/page/" + Decimal(i) + "/";
      assert s[i - 1] == PageUrl(i);
    }
    if u in s {
      var k :| 0 <= k < |s| && s[k] == u;
      assert s[k] == PageUrl(k + 1);
      if k != 0 {
        assert 2 <= k + 1 <= TotalPages && u == ChiveUrl + "/page/" + Decimal(k + 1) + "/";
      }
    }
  }

  /** Whatever the shuffle picks, the result is exactly the 282 distinct listing URLs. */
  lemma InitChivePagesSpec(choices: seq<nat>)
    ensures |InitChivePages(choices)| == TotalPages
    ensures Rand.Distinct(InitChivePages(choices))
    ensures multiset(InitChivePages(choices)) == multiset(PageList())
    ensures forall u :: u in InitChivePages(choices) <==> IsListingUrl(u)
  {
    var r := InitChivePages(choices);
    PageListDistinct();
    Rand.DistinctPermutation(PageList(), r);
    forall u ensures u in r <==> IsListingUrl(u) {
      assert u in r <==> u in multiset(r);
      assert u in PageList() <==> u in multiset(PageList());
      PageListMembership(u);
    }
  }

  // ---------------------------------------------------------------------------
  // parse_chive_page
  // ---------------------------------------------------------------------------

  /** An HTML element, reduced to its attributes. */
  type Element = map<string, string>

  /** The value of attribute `name` of each element that has it, in document order. */
  function Attrs(elems: seq<Element>, name: string): (r: seq<string>)
    ensures |r| <= |elems|
  {
    if elems == [] then []
    else (if name in elems[0] then [elems[0][name]] else []) + Attrs(elems[1..], name)
  }

  lemma {:induction false} AttrsMembership(elems: seq<Element>, name: string, x: string)
    ensures x in Attrs(elems, name) <==> exists k :: 0 <= k < |elems| && name in elems[k] && elems[k][name] == x
  {
    if elems != [] {
      AttrsMembership(elems[1..], name, x);
      if exists k :: 1 <= k < |elems| && name in elems[k] && elems[k][name] == x {
        var k :| 1 <= k < |elems| && name in elems[k] && elems[k][name] == x;
        assert elems[1..][k - 1] == elems[k];
      }
      if exists k :: 0 <= k < |elems| - 1 && name in elems[1..][k] && elems[1..][k][name] == x {
        var k :| 0 <= k < |elems| - 1 && name in elems[1..][k] && elems[1..][k][name] == x;
        assert elems[k + 1] == elems[1..][k];
      }
    }
  }

  /**
   * `parse_chive_page`, given the anchors the card selector matched: their `href`
   * values, shuffled. It never fails.
   */
  function ParseChivePage(cards: seq<Element>, choices: seq<nat>): (r: Result<seq<string>, string>)
    ensures r.Ok?
    ensures multiset(r.value) == multiset(Attrs(cards, "href"))
  {
    Ok(Rand.Shuffle(Attrs(cards, "href"), choices))
  }

  /** A link is in the result exactly when some matched anchor has it as its `href`. */
  lemma ParseChivePageLinks(cards: seq<Element>, choices: seq<nat>, x: string)
    ensures x in ParseChivePage(cards, choices).value <==>
      exists k :: 0 <= k < |cards| && "href" in cards[k] && cards[k]["href"] == x
  {
    var r := ParseChivePage(cards, choices).value;
    assert x in r <==> x in multiset(Attrs(cards, "href"));
    AttrsMembership(cards, "href", x);
  }

  // ---------------------------------------------------------------------------
  // find_json
  // ---------------------------------------------------------------------------

  /** After reading `s[..k+1]`, the closing brace at `k` brings the depth back to zero. */
  predicate ClosesAt(s: string, k: nat)
    requires k < |s|
  {
    s[k] == '}' && Depth(s[..k + 1]) == 0
  }

  /** The first position at or after `from` where the depth returns to zero on a `}`. */
  function FirstClose(s: string, from: nat): (r: Option<nat>)
    requires from <= |s|
    ensures r.Some? ==> from <= r.value < |s| && ClosesAt(s, r.value)
    ensures r.Some? ==> forall j :: from <= j < r.value ==> !ClosesAt(s, j)
    ensures r.None? ==> forall j :: from <= j < |s| ==> !ClosesAt(s, j)
    decreases |s| - from
  {
    if from == |s| then None
    else if ClosesAt(s, from) then Some(from)
    else FirstClose(s, from + 1)
  }

  /** Before (and at) the first `{`, the depth cannot come back to zero on a `}`. */
  lemma NoCloseBeforeFirstOpen(content: string, start: nat)
    requires start < |content| && content[start] == '{'
    requires forall k :: 0 <= k < start ==> content[k] != '{'
    ensures forall k :: 0 <= k <= start ==> !ClosesAt(content, k)
  {
    forall k | 0 <= k < start && content[k] == '}' ensures !ClosesAt(content, k) {
      CountAbsent(content[..k + 1], '{');
      DepthSnoc(content[..k], content[k]);
      assert content[..k + 1] == content[..k] + [content[k]];
    }
  }

  /** The text from the first occurrence of the marker on, if it occurs. */
  function FromMarker(html: string, marker: string): (r: Option<string>)
    ensures r.None? <==> forall j :: 0 <= j <= |html| ==> !OccursAt(html, marker, j)
    ensures r.Some? ==>
      var at := |html| - |r.value|;
      0 <= at && r.value == html[at..] && OccursAt(html, marker, at) &&
      forall j :: 0 <= j < at ==> !OccursAt(html, marker, j)
  {
    match IndexOf(html, marker)
    case None => None
    case Some(idx) => Some(html[idx..])
  }

  /** The position of the first `{` in `content`, if any. */
  function FirstOpen(content: string): Option<nat>
  {
    FindChar(content, '{', 0)
  }

  /**
   * Where the scan stops: the first `}` that brings the depth, counted from the
   * marker, back to zero; `start` itself when that never happens.
   */
  function BlobEnd(content: string, start: nat): (e: nat)
    requires start < |content| && content[start] == '{'
    requires forall k :: 0 <= k < start ==> content[k] != '{'
    ensures start <= e < |content|
  {
    NoCloseBeforeFirstOpen(content, start);
    match FirstClose(content, 0)
    case Some(e) => e
    case None => start
  }

  /** What a marker search followed by the brace scan returns, for any marker. */
  function JsonBlobAfter(html: string, marker: string): Option<string>
  {
    match FromMarker(html, marker)
    case None => None
    case Some(content) =>
      match FirstOpen(content)
      case None => None
      case Some(start) => Some(content[start..BlobEnd(content, start) + 1])
  }

  /** The scan stops at the first rebalancing `}`. */
  lemma BlobEndAt(content: string, start: nat, e: nat)
    requires start < |content| && content[start] == '{'
    requires forall k :: 0 <= k < start ==> content[k] != '{'
    requires e < |content| && ClosesAt(content, e) && forall k :: 0 <= k < e ==> !ClosesAt(content, k)
    ensures BlobEnd(content, start) == e
  {
  }

  /** When nothing rebalances, the scan ends at `start`. */
  lemma BlobEndNever(content: string, start: nat)
    requires start < |content| && content[start] == '{'
    requires forall k :: 0 <= k < start ==> content[k] != '{'
    requires forall k :: 0 <= k < |content| ==> !ClosesAt(content, k)
    ensures BlobEnd(content, start) == start
  {
  }

  /** What `find_json` returns, stated without its loop. */
  function JsonBlob(html: string): Option<string>
  {
    JsonBlobAfter(html, Marker)
  }

  /** How `JsonBlobAfter` decomposes once the marker and the first `{` are found. */
  lemma JsonBlobFound(html: string, marker: string, idx: nat, start: nat)
    requires IndexOf(html, marker) == Some(idx)
    requires FirstOpen(html[idx..]) == Some(start)
    ensures JsonBlobAfter(html, marker) == Some(html[idx..][start..BlobEnd(html[idx..], start) + 1])
  {
  }

  /** Without the marker, or without a `{` after it, there is no result. */
  lemma JsonBlobMissing(html: string, marker: string)
    requires IndexOf(html, marker).None? || FirstOpen(html[IndexOf(html, marker).value..]).None?
    ensures JsonBlobAfter(html, marker).None?
  {
  }

  /** `find_json`: marker search, then a brace-depth scan with an early exit. */
  method FindJson(html: string) returns (r: Option<string>)
    ensures r == JsonBlob(html)
  {
    var found := IndexOf(html, Marker);
    if found.Some? {
      var content := html[found.value..];
      var open := FirstOpen(content);
      if open.Some? {
        var start := open.value;
        var end := ScanEnd(content, start);
        JsonBlobFound(html, Marker, found.value, start);
        r := Some(content[start..end + 1]);
        return;
      }
    }
    JsonBlobMissing(html, Marker);
    r := None;
  }

  /**
   * The loop of `find_json`: count braces from the marker on and stop at the first
   * `}` that brings the count back to zero; `end` stays at `start` otherwise.
   */
  method ScanEnd(content: string, start: nat) returns (end: nat)
    requires start < |content| && content[start] == '{'
    requires forall k :: 0 <= k < start ==> content[k] != '{'
    ensures end == BlobEnd(content, start)
  {
    end := start;
    var stack := 0;
    ghost var closed := false;
    for i := 0 to |content|
      invariant stack == Depth(content[..i])
      invariant end == start
      invariant forall k :: 0 <= k < i ==> !ClosesAt(content, k)
    {
      DepthStep(content, i);
      if content[i] == '{' {
        stack := stack + 1;
      } else if content[i] == '}' {
        stack := stack - 1;
        if stack == 0 {
          BlobEndAt(content, start, i);
          end := i;
          closed := true;
          break;
        }
      }
    }
    if !closed {
      BlobEndNever(content, start);
    }
  }

  /** `find_json` gives nothing exactly when the marker is absent or no `{` follows its first occurrence. */
  lemma JsonBlobNone(html: string, marker: string)
    ensures JsonBlobAfter(html, marker).None? <==>
      (forall j :: 0 <= j <= |html| ==> !OccursAt(html, marker, j)) ||
      (IndexOf(html, marker).Some? && forall k :: IndexOf(html, marker).value <= k < |html| ==> html[k] != '{')
  {
    if IndexOf(html, marker).Some? {
      var idx := IndexOf(html, marker).value;
      var content := html[idx..];
      forall k | idx <= k < |html| ensures html[k] == content[k - idx] {}
      forall k | 0 <= k < |content| ensures content[k] == html[k + idx] {}
    }
  }

  /** The found piece, as a slice of the input. */
  lemma JsonBlobSlice(html: string, marker: string, idx: nat, start: nat)
    requires IndexOf(html, marker) == Some(idx)
    requires FirstOpen(html[idx..]) == Some(start)
    ensures idx + start < |html| && html[idx + start] == '{'
    ensures forall k :: idx <= k < idx + start ==> html[k] != '{'
    ensures JsonBlobAfter(html, marker) == Some(html[idx + start..idx + BlobEnd(html[idx..], start) + 1])
  {
    var content := html[idx..];
    JsonBlobFound(html, marker, idx, start);
    var e := BlobEnd(content, start);
    assert e < |content| == |html| - idx;
    var piece, slice := content[start..e + 1], html[idx + start..idx + e + 1];
    forall k | 0 <= k < |piece| ensures piece[k] == slice[k] {
      assert piece[k] == content[start + k] == html[idx + start + k];
    }
    assert piece == slice;
    forall k | idx <= k < idx + start ensures html[k] != '{' {
      assert html[k] == content[k - idx];
    }
  }

  /** A result starts at the first `{` after the first marker and is a piece of the input. */
  lemma JsonBlobStart(html: string, marker: string)
    requires JsonBlobAfter(html, marker).Some?
    ensures |JsonBlobAfter(html, marker).value| >= 1 && JsonBlobAfter(html, marker).value[0] == '{'
    ensures IndexOf(html, marker).Some?
    ensures exists s, e :: (IndexOf(html, marker).value <= s < e <= |html| && html[s] == '{' &&
      (forall k :: IndexOf(html, marker).value <= k < s ==> html[k] != '{') &&
      JsonBlobAfter(html, marker).value == html[s..e])
  {
    var idx := IndexOf(html, marker).value;
    var start := FirstOpen(html[idx..]).value;
    JsonBlobSlice(html, marker, idx, start);
    var e := idx + BlobEnd(html[idx..], start) + 1;
    assert idx <= idx + start < e <= |html|;
  }

  /** Some `}` brings the depth back to zero. */
  predicate Rebalances(content: string)
  {
    exists k :: 0 <= k < |content| && ClosesAt(content, k)
  }

  /** Every `}` has some `{` before it. */
  predicate OpenBeforeClose(content: string)
  {
    forall k :: 0 <= k < |content| && content[k] == '}' ==> '{' in content[..k]
  }

  /** When the braces never rebalance, the result is the lone opening brace. */
  lemma JsonBlobUnbalanced(html: string, marker: string)
    requires FromMarker(html, marker).Some? && !Rebalances(FromMarker(html, marker).value)
    requires JsonBlobAfter(html, marker).Some?
    ensures JsonBlobAfter(html, marker).value == "{"
  {
    var content := FromMarker(html, marker).value;
    assert FirstClose(content, 0).None?;
  }

  /**
   * When every `}` after the marker has a `{` before it and the braces do rebalance,
   * the result is a balanced group: it ends in `}`, it has as many `{` as `}`, and
   * every proper non-empty prefix is still open.
   */
  lemma JsonBlobBalanced(html: string, marker: string)
    requires IndexOf(html, marker).Some?
    requires Rebalances(html[IndexOf(html, marker).value..]) && OpenBeforeClose(html[IndexOf(html, marker).value..])
    ensures JsonBlobAfter(html, marker).Some?
    ensures var r := JsonBlobAfter(html, marker).value;
      r[|r| - 1] == '}' && Count(r, '{') == Count(r, '}') &&
      forall j :: 1 <= j < |r| ==> Depth(r[..j]) > 0
  {
    var idx := IndexOf(html, marker).value;
    var content := html[idx..];
    BalancedScan(content);
    JsonBlobFound(html, marker, idx, FirstOpen(content).value);
  }

  /** Within the text after the marker: a rebalancing scan with no stray `}` yields a balanced group. */
  lemma BalancedScan(content: string)
    requires Rebalances(content) && OpenBeforeClose(content)
    ensures FirstOpen(content).Some?
    ensures var start := FirstOpen(content).value;
      var r := content[start..BlobEnd(content, start) + 1];
      r[|r| - 1] == '}' && Count(r, '{') == Count(r, '}') &&
      forall j :: 1 <= j < |r| ==> Depth(r[..j]) > 0
  {
    RebalancingOpens(content);
    var start := FirstOpen(content).value;
    var e := FirstClose(content, 0).value;
    BlobEndAt(content, start, e);
    GroupBalanced(content, start, e);
  }

  /** A rebalancing scan with no stray `}` has a first `{` and a first closing position. */
  lemma RebalancingOpens(content: string)
    requires Rebalances(content) && OpenBeforeClose(content)
    ensures FirstOpen(content).Some? && FirstClose(content, 0).Some?
  {
    var k :| 0 <= k < |content| && ClosesAt(content, k);
    assert '{' in content[..k];
    var m :| 0 <= m < k && content[m] == '{';
    assert content[m] == '{';
  }

  /** The group from the first `{` to the first rebalancing `}` is balanced and open until its end. */
  lemma GroupBalanced(content: string, start: nat, e: nat)
    requires start < e < |content| && content[start] == '{'
    requires forall k :: 0 <= k < start ==> content[k] != '{'
    requires OpenBeforeClose(content)
    requires ClosesAt(content, e) && forall j :: 0 <= j < e ==> !ClosesAt(content, j)
    ensures var r := content[start..e + 1];
      r[|r| - 1] == '}' && Count(r, '{') == Count(r, '}') &&
      forall j :: 1 <= j < |r| ==> Depth(r[..j]) > 0
  {
    var r := content[start..e + 1];
    DepthFromOpen(content, start, e + 1);
    assert r[..|r|] == r;
    PrefixesOpen(content, start, e, r);
  }

  /** With no brace before `start`, depths counted from the marker equal depths counted from `start`. */
  lemma DepthFromOpen(content: string, start: nat, end: nat)
    requires start < end <= |content| && content[start] == '{'
    requires forall k :: 0 <= k < start ==> content[k] != '{'
    requires OpenBeforeClose(content)
    ensures Depth(content[..start]) == 0
    ensures forall j :: 0 <= j <= end - start ==> Depth(content[..start + j]) == Depth(content[start..end][..j])
  {
    forall k | 0 <= k < start ensures content[k] != '}' {}
    DepthAfterBraceFree(content, start, end);
  }

  /** A brace-free prefix adds nothing: depths counted from the start of `content` equal those counted from `start`. */
  lemma DepthAfterBraceFree(content: string, start: nat, end: nat)
    requires start <= end <= |content|
    requires forall k :: 0 <= k < start ==> content[k] != '{' && content[k] != '}'
    ensures Depth(content[..start]) == 0
    ensures forall j :: 0 <= j <= end - start ==> Depth(content[..start + j]) == Depth(content[start..end][..j])
  {
    CountAbsent(content[..start], '{');
    CountAbsent(content[..start], '}');
    var r := content[start..end];
    forall j | 0 <= j <= end - start ensures Depth(content[..start + j]) == Depth(r[..j]) {
      assert content[..start + j] == content[..start] + r[..j];
      CountAppend(content[..start], r[..j], '{');
      CountAppend(content[..start], r[..j], '}');
    }
  }

  /** `obj` opens with `{`, has as many `{` as `}`, and every proper non-empty prefix is still open. */
  predicate BalancedGroup(obj: string)
  {
    obj != [] && obj[0] == '{' && Count(obj, '{') == Count(obj, '}') &&
    forall j :: 1 <= j < |obj| ==> Depth(obj[..j]) > 0
  }

  /** A balanced group closes on its last character, a `}`. */
  lemma GroupEndsInClose(obj: string)
    requires BalancedGroup(obj)
    ensures |obj| >= 2 && obj[|obj| - 1] == '}' && Depth(obj) == 0
  {
    DepthStep(obj, |obj| - 1);
    assert obj[..|obj|] == obj;
  }

  /** Within the text after the marker: a brace-free lead-in and then such a group make the scan stop at the group's end. */
  lemma GroupScan(content: string, start: nat, obj: string)
    requires start + |obj| <= |content| && content[start..start + |obj|] == obj
    requires forall k :: 0 <= k < start ==> content[k] != '{' && content[k] != '}'
    requires BalancedGroup(obj)
    ensures FirstOpen(content) == Some(start)
    ensures BlobEnd(content, start) == start + |obj| - 1
  {
    assert content[start] == content[start..start + |obj|][0];
    GroupEndsInClose(obj);
    var e := start + |obj| - 1;
    DepthAfterBraceFree(content, start, e + 1);
    forall k | 0 <= k < e ensures !ClosesAt(content, k) {
      if k >= start {
        assert Depth(content[..start + (k + 1 - start)]) == Depth(obj[..k + 1 - start]);
      }
    }
    assert content[e] == content[start..start + |obj|][|obj| - 1];
    assert obj[..|obj|] == obj;
    assert ClosesAt(content, e);
    BlobEndAt(content, start, e);
  }

  /**
   * The converse of `JsonBlobBalanced`: when the first marker is followed, with no
   * brace in between, by a group `obj` that opens with `{`, has as many `{` as `}`
   * and stays open until its last character, the extraction returns exactly `obj`.
   */
  lemma JsonBlobRoundTrip(html: string, marker: string, idx: nat, s: nat, obj: string)
    requires IndexOf(html, marker) == Some(idx)
    requires idx <= s && s + |obj| <= |html| && html[s..s + |obj|] == obj
    requires forall k :: idx <= k < s ==> html[k] != '{' && html[k] != '}'
    requires BalancedGroup(obj)
    ensures JsonBlobAfter(html, marker) == Some(obj)
  {
    ShiftedSlice(html, idx, s, obj);
    GroupScan(html[idx..], s - idx, obj);
    JsonBlobFoundEnd(html, marker, idx, s - idx, obj);
  }

  /** Once the marker, the first `{` and the end of the scan are known, the result is the piece between them. */
  lemma JsonBlobFoundEnd(html: string, marker: string, idx: nat, start: nat, obj: string)
    requires IndexOf(html, marker) == Some(idx)
    requires FirstOpen(html[idx..]) == Some(start)
    requires obj != [] && BlobEnd(html[idx..], start) == start + |obj| - 1
    requires html[idx..][start..start + |obj|] == obj
    ensures JsonBlobAfter(html, marker) == Some(obj)
  {
    JsonBlobFound(html, marker, idx, start);
  }

  /** The slice and the brace-free lead-in, seen from the marker position. */
  lemma ShiftedSlice(html: string, idx: nat, s: nat, obj: string)
    requires idx <= s && s + |obj| <= |html| && html[s..s + |obj|] == obj
    requires forall k :: idx <= k < s ==> html[k] != '{' && html[k] != '}'
    ensures html[idx..][s - idx..s - idx + |obj|] == obj
    ensures forall k :: 0 <= k < s - idx ==> html[idx..][k] != '{' && html[idx..][k] != '}'
  {
    var content := html[idx..];
    var piece := content[s - idx..s - idx + |obj|];
    forall k | 0 <= k < |obj| ensures piece[k] == obj[k] {
      assert piece[k] == html[s + k] == html[s..s + |obj|][k];
    }
    forall k | 0 <= k < s - idx ensures content[k] != '{' && content[k] != '}' {
      assert content[k] == html[idx + k];
    }
  }

  /** Induction over the prefixes of the group: the depth stays positive until `e`. */
  lemma {:induction false} PrefixesOpen(content: string, start: nat, e: nat, r: string)
    requires start < e < |content| && r == content[start..e + 1] && content[start] == '{'
    requires forall j :: start <= j < e ==> !ClosesAt(content, j)
    requires forall j :: 0 <= j <= |r| ==> Depth(content[..start + j]) == Depth(r[..j])
    requires Depth(content[..start]) == 0
    ensures forall j :: 1 <= j < |r| ==> Depth(r[..j]) > 0
  {
    var j := 1;
    DepthStep(content, start);
    while j < |r| - 1
      invariant 1 <= j <= |r| - 1
      invariant forall m :: 1 <= m <= j ==> Depth(r[..m]) > 0
    {
      var p := start + j;
      DepthStep(content, p);
      assert !ClosesAt(content, p);
      assert Depth(content[..start + j]) == Depth(r[..j]);
      assert Depth(content[..start + j + 1]) == Depth(r[..j + 1]);
      j := j + 1;
    }
  }

  // ---------------------------------------------------------------------------
  // parse_chive_sub
  // ---------------------------------------------------------------------------

  /**
   * One member of the gallery's `items` array: its `type` when that is a string,
   * and the `img` elements of its `html` fragment. An item whose `html` is missing or
   * not a string is read as the fragment `<figure />`, which holds no img, so its
   * `imgs` is empty.
   */
  datatype Item = Item(kind: Option<string>, imgs: seq<Element>)

  /** The `items` member of the decoded document (`Missing` also when the document is not an object). */
  datatype ItemsField = Missing | NotArray | Array(items: seq<Item>)

  /** A decoded document: how it displays, and its `items` member. */
  datatype Json = Json(shown: string, items: ItemsField)

  /** A parsed absolute URI, split into the components the crawler reads or drops. */
  datatype Uri = Uri(scheme: string, host: string, port: Option<nat>, path: string, query: Option<string>)

  /** Which attribute holds an item's image: `data-gifsrc` for type "gif", `src` otherwise (type defaults to "attachment"). */
  function SourceAttr(item: Item): string
  {
    if item.kind.GetOr("attachment") == "gif" then "data-gifsrc" else "src"
  }

  /** The image sources of one item, skipping imgs without the chosen attribute. */
  function ItemSources(item: Item): seq<string>
  {
    Attrs(item.imgs, SourceAttr(item))
  }

  /** The per-item source lists, flattened in item order. */
  function Sources(items: seq<Item>): seq<string>
  {
    if items == [] then [] else ItemSources(items[0]) + Sources(items[1..])
  }

  /** A URI rebuilt as scheme "://" host path. */
  function Normalize(u: Uri): string
  {
    u.scheme + "://" + u.host + u.path
  }

  /** Sources that parse as URIs, each normalised; the others are dropped. */
  function Links(srcs: seq<string>, parseUri: string -> Option<Uri>): (r: seq<string>)
    ensures |r| <= |srcs|
  {
    if srcs == [] then []
    else
      (match parseUri(srcs[0]) case Some(u) => [Normalize(u)] case None => [])
      + Links(srcs[1..], parseUri)
  }

  /**
   * `parse_chive_sub`: the embedded gallery JSON is located with `find_json`,
   * decoded by `decode`, and its items' image sources normalised and shuffled.
   */
  function ParseChiveSub(html: string, decode: string -> Result<Json, string>,
                         parseUri: string -> Option<Uri>, choices: seq<nat>): Result<seq<string>, string>
  {
    ParseGallery(JsonBlob(html), decode, parseUri, choices)
  }

  /** What `parse_chive_sub` does with the outcome of `find_json`. */
  function ParseGallery(blob: Option<string>, decode: string -> Result<Json, string>,
                        parseUri: string -> Option<Uri>, choices: seq<nat>): (r: Result<seq<string>, string>)
    ensures r.Ok? <==> blob.Some? && decode(blob.value).Ok? && decode(blob.value).value.items.Array?
    ensures r.Ok? ==>
      multiset(r.value) == multiset(Links(Sources(decode(blob.value).value.items.items), parseUri))
  {
    match blob
    case None => Err("No JSON found in Page's content.")
    case Some(text) =>
      match decode(text)
      case Err(m) => Err(m)
      case Ok(json) =>
        match json.items
        case Missing => Err("No items found in : " + json.shown)
        case NotArray => Err("Items is not an array: " + json.shown)
        case Array(items) => Ok(Rand.Shuffle(Links(Sources(items), parseUri), choices))
  }

  /** The failure cases, each with its message; nothing else fails. */
  lemma ParseChiveSubErrors(html: string, decode: string -> Result<Json, string>,
                            parseUri: string -> Option<Uri>, choices: seq<nat>)
    ensures JsonBlob(html).None? ==>
      ParseChiveSub(html, decode, parseUri, choices) == Err("No JSON found in Page's content.")
    ensures JsonBlob(html).Some? && decode(JsonBlob(html).value).Err? ==>
      ParseChiveSub(html, decode, parseUri, choices) == Err(decode(JsonBlob(html).value).error)
    ensures JsonBlob(html).Some? && decode(JsonBlob(html).value).Ok? ==>
      var json := decode(JsonBlob(html).value).value;
      (json.items.Missing? ==> ParseChiveSub(html, decode, parseUri, choices) == Err("No items found in : " + json.shown)) &&
      (json.items.NotArray? ==> ParseChiveSub(html, decode, parseUri, choices) == Err("Items is not an array: " + json.shown))
    ensures ParseChiveSub(html, decode, parseUri, choices).Err? <==>
      JsonBlob(html).None? || decode(JsonBlob(html).value).Err? || !decode(JsonBlob(html).value).value.items.Array?
  {
  }

  lemma {:induction false} SourcesMembership(items: seq<Item>, x: string)
    ensures x in Sources(items) <==> exists i :: 0 <= i < |items| && x in ItemSources(items[i])
  {
    if items != [] {
      SourcesMembership(items[1..], x);
      if exists i :: 1 <= i < |items| && x in ItemSources(items[i]) {
        var i :| 1 <= i < |items| && x in ItemSources(items[i]);
        assert items[1..][i - 1] == items[i];
      }
    }
  }

  lemma {:induction false} LinksMembership(srcs: seq<string>, parseUri: string -> Option<Uri>, x: string)
    ensures x in Links(srcs, parseUri) <==>
      exists k :: 0 <= k < |srcs| && parseUri(srcs[k]).Some? && Normalize(parseUri(srcs[k]).value) == x
  {
    if srcs != [] {
      LinksMembership(srcs[1..], parseUri, x);
      if exists k :: 1 <= k < |srcs| && parseUri(srcs[k]).Some? && Normalize(parseUri(srcs[k]).value) == x {
        var k :| 1 <= k < |srcs| && parseUri(srcs[k]).Some? && Normalize(parseUri(srcs[k]).value) == x;
        assert srcs[1..][k - 1] == srcs[k];
      }
    }
  }

  /** The img at `k` of item `i` carries its item's source attribute, and that value normalises to `x`. */
  predicate ImageOf(items: seq<Item>, parseUri: string -> Option<Uri>, i: nat, k: nat, x: string)
  {
    i < |items| && k < |items[i].imgs| && SourceAttr(items[i]) in items[i].imgs[k] &&
    parseUri(items[i].imgs[k][SourceAttr(items[i])]).Some? &&
    Normalize(parseUri(items[i].imgs[k][SourceAttr(items[i])]).value) == x
  }

  /** Every link that comes out of the items is yielded by some img of some item. */
  lemma ItemLinksSound(items: seq<Item>, parseUri: string -> Option<Uri>, x: string)
    requires x in Links(Sources(items), parseUri)
    ensures exists i: nat, k: nat :: ImageOf(items, parseUri, i, k, x)
  {
    var srcs := Sources(items);
    LinksMembership(srcs, parseUri, x);
    var m :| 0 <= m < |srcs| && parseUri(srcs[m]).Some? && Normalize(parseUri(srcs[m]).value) == x;
    SourcesMembership(items, srcs[m]);
    var i :| 0 <= i < |items| && srcs[m] in ItemSources(items[i]);
    AttrsMembership(items[i].imgs, SourceAttr(items[i]), srcs[m]);
    var k :| 0 <= k < |items[i].imgs| && SourceAttr(items[i]) in items[i].imgs[k] &&
      items[i].imgs[k][SourceAttr(items[i])] == srcs[m];
    assert ImageOf(items, parseUri, i, k, x);
  }

  /** Every link some img of some item yields comes out of the items. */
  lemma ItemLinksComplete(items: seq<Item>, parseUri: string -> Option<Uri>, x: string, i: nat, k: nat)
    requires ImageOf(items, parseUri, i, k, x)
    ensures x in Links(Sources(items), parseUri)
  {
    var srcs := Sources(items);
    var src := items[i].imgs[k][SourceAttr(items[i])];
    AttrsMembership(items[i].imgs, SourceAttr(items[i]), src);
    SourcesMembership(items, src);
    var m :| 0 <= m < |srcs| && srcs[m] == src;
    LinksMembership(srcs, parseUri, x);
  }

  /** A link comes out of the items exactly when some img of some item yields it. */
  lemma ItemLinksMembership(items: seq<Item>, parseUri: string -> Option<Uri>, x: string)
    ensures x in Links(Sources(items), parseUri) <==> exists i: nat, k: nat :: ImageOf(items, parseUri, i, k, x)
  {
    if x in Links(Sources(items), parseUri) {
      ItemLinksSound(items, parseUri, x);
    }
    if exists i: nat, k: nat :: ImageOf(items, parseUri, i, k, x) {
      var i: nat, k: nat :| ImageOf(items, parseUri, i, k, x);
      ItemLinksComplete(items, parseUri, x, i, k);
    }
  }

  /**
   * Once the gallery JSON decodes to an `items` array, the result is a permutation of
   * the normalised sources of all items, and a link is in it exactly when some img of
   * some item carries the attribute its item's type selects, with a value that parses
   * to a URI normalising to that link.
   */
  lemma ParseChiveSubImages(text: string, decode: string -> Result<Json, string>,
                            parseUri: string -> Option<Uri>, choices: seq<nat>, items: seq<Item>, x: string)
    requires decode(text).Ok? && decode(text).value.items == Array(items)
    ensures forall html :: JsonBlob(html) == Some(text) ==>
      ParseChiveSub(html, decode, parseUri, choices) == ParseGallery(Some(text), decode, parseUri, choices)
    ensures ParseGallery(Some(text), decode, parseUri, choices).Ok?
    ensures multiset(ParseGallery(Some(text), decode, parseUri, choices).value) == multiset(Links(Sources(items), parseUri))
    ensures x in ParseGallery(Some(text), decode, parseUri, choices).value <==>
      exists i: nat, k: nat :: ImageOf(items, parseUri, i, k, x)
  {
    var r := ParseGallery(Some(text), decode, parseUri, choices).value;
    assert x in r <==> x in multiset(Links(Sources(items), parseUri));
    ItemLinksMembership(items, parseUri, x);
  }

  /** Two URIs that differ only in port or query normalise to the same link. */
  lemma NormalizeDropsPortAndQuery(u: Uri, v: Uri)
    requires u.scheme == v.scheme && u.host == v.host && u.path == v.path
    ensures Normalize(u) == Normalize(v)
  {
  }

  /**
   * A gif item and a plain item, one img each carrying both attributes: the gif
   * item contributes its `data-gifsrc`, the other its `src`.
   */
  lemma GifAndPlainItems(gif: string, still: string, src1: string, src2: string)
    ensures Sources([Item(Some("gif"), [map["data-gifsrc" := gif, "src" := src1]]),
                     Item(None, [map["data-gifsrc" := src2, "src" := still]])]) == [gif, still]
  {
    var a := Item(Some("gif"), [map["data-gifsrc" := gif, "src" := src1]]);
    var b := Item(None, [map["data-gifsrc" := src2, "src" := still]]);
    assert "gif" != "attachment";
    assert SourceAttr(a) == "data-gifsrc";
    assert SourceAttr(b) == "src";
    assert a.imgs[1..] == [] && b.imgs[1..] == [];
    assert Attrs(a.imgs, "data-gifsrc") == [gif] + Attrs([], "data-gifsrc");
    assert Attrs(b.imgs, "src") == [still] + Attrs([], "src");
    assert [a, b][1..] == [b];
    assert Sources([b]) == ItemSources(b) + Sources([]);
  }
  /**
   * The same two items carried through to what `parse_chive_sub` returns: once the
   * gallery decodes to them and the two kept sources parse, the result holds exactly
   * the two normalised links, in some order.
   */
  lemma GifAndPlainGallery(text: string, decode: string -> Result<Json, string>,
                           parseUri: string -> Option<Uri>, choices: seq<nat>,
                           gif: string, still: string, src1: string, src2: string, u1: Uri, u2: Uri)
    requires decode(text).Ok?
    requires decode(text).value.items ==
      Array([Item(Some("gif"), [map["data-gifsrc" := gif, "src" := src1]]),
             Item(None, [map["data-gifsrc" := src2, "src" := still]])])
    requires parseUri(gif) == Some(u1) && parseUri(still) == Some(u2)
    ensures ParseGallery(Some(text), decode, parseUri, choices).Ok?
    ensures multiset(ParseGallery(Some(text), decode, parseUri, choices).value) ==
      multiset{Normalize(u1), Normalize(u2)}
  {
    GifAndPlainItems(gif, still, src1, src2);
    assert [gif, still][1..] == [still];
    assert Links([still], parseUri) == [Normalize(u2)] + Links([], parseUri);
    assert Links([gif, still], parseUri) == [Normalize(u1), Normalize(u2)];
  }
}
