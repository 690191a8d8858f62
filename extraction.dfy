/**
 * `extractPages` of pdf-extract-and-layout.js builds a new document from
 * the pages of a loaded template at the requested 1-based page numbers, in
 * the order given, with a repeated number giving a repeated copy.
 */
module Extraction {
  import opened Options
  import opened Pdf

  /** Every requested number names a page of a template with `count` pages. */
  predicate AllInRange(nums: seq<int>, count: nat) {
    forall k :: 0 <= k < |nums| ==> 1 <= nums[k] <= count
  }

  /** The first requested number that names no page: copying that page is
      where the library fails. */
  function FirstOutOfRange(nums: seq<int>, count: nat): (r: Option<int>)
    ensures r.None? <==> AllInRange(nums, count)
    ensures r.Some? ==> r.value in nums && !(1 <= r.value <= count)
  {
    if nums == [] then None
    else if !(1 <= nums[0] <= count) then Some(nums[0])
    else FirstOutOfRange(nums[1..], count)
  }

  /** The number reported is the first bad one: it is requested at a
      position before which every number is in range. */
  lemma {:induction false} FirstOutOfRangeIsFirst(nums: seq<int>, count: nat)
    requires FirstOutOfRange(nums, count).Some?
    ensures exists i :: 0 <= i < |nums| && nums[i] == FirstOutOfRange(nums, count).value && AllInRange(nums[..i], count)
  {
    if 1 <= nums[0] <= count {
      FirstOutOfRangeIsFirst(nums[1..], count);
      var i :| 0 <= i < |nums[1..]| && nums[1..][i] == FirstOutOfRange(nums[1..], count).value
        && AllInRange(nums[1..][..i], count);
      assert nums[..i + 1] == [nums[0]] + nums[1..][..i];
      assert nums[i + 1] == FirstOutOfRange(nums, count).value;
    } else {
      assert AllInRange(nums[..0], count);
    }
  }

  /** The pages a successful extraction copies, one per requested number. */
  function Extracted(src: seq<Page>, nums: seq<int>): seq<Page>
    requires AllInRange(nums, |src|)
  {
    if nums == [] then [] else [src[nums[0] - 1]] + Extracted(src, nums[1..])
  }

  /** Extraction yields exactly one page per requested number, and page k
      is the template page numbered nums[k]. */
  lemma {:induction false} ExtractedPages(src: seq<Page>, nums: seq<int>)
    requires AllInRange(nums, |src|)
    ensures |Extracted(src, nums)| == |nums|
    ensures forall k :: 0 <= k < |nums| ==> Extracted(src, nums)[k] == src[nums[k] - 1]
  {
    if nums != [] {
      ExtractedPages(src, nums[1..]);
    }
  }

  lemma AllInRangeAppend(a: seq<int>, b: seq<int>, count: nat)
    requires AllInRange(a, count) && AllInRange(b, count)
    ensures AllInRange(a + b, count)
  {
    forall k | 0 <= k < |a + b|
      ensures 1 <= (a + b)[k] <= count
    {
      if k < |a| { assert (a + b)[k] == a[k]; } else { assert (a + b)[k] == b[k - |a|]; }
    }
  }

  /** Extracting a list made of two parts extracts each part in turn. */
  lemma {:induction false} ExtractedAppend(src: seq<Page>, a: seq<int>, b: seq<int>)
    requires AllInRange(a, |src|) && AllInRange(b, |src|)
    ensures AllInRange(a + b, |src|)
    ensures Extracted(src, a + b) == Extracted(src, a) + Extracted(src, b)
  {
    AllInRangeAppend(a, b, |src|);
    if a != [] {
      var tail := a[1..];
      assert AllInRange(tail, |src|);
      assert (a + b)[0] == a[0] && (a + b)[1..] == tail + b;
      ExtractedAppend(src, tail, b);
      assert Extracted(src, a) == [src[a[0] - 1]] + Extracted(src, tail);
    } else {
      assert a + b == b;
    }
  }

  /** Asking for the whole template in order gives the template back. */
  lemma {:induction false} ExtractedIdentity(src: seq<Page>, nums: seq<int>)
    requires |nums| == |src|
    requires forall k :: 0 <= k < |nums| ==> nums[k] == k + 1
    ensures AllInRange(nums, |src|)
    ensures Extracted(src, nums) == src
  {
    ExtractedPages(src, nums);
  }

  /** `extractPages`: a fresh document receives a copy of each requested
      page in turn. On a number outside 1..|src| the copy fails and that
      number is returned; the partial document is then abandoned. */
  method ExtractPages(src: seq<Page>, pageNumbers: seq<int>) returns (newPdf: Document, bad: Option<int>)
    ensures fresh(newPdf)
    ensures bad == FirstOutOfRange(pageNumbers, |src|)
    ensures bad.None? ==> newPdf.pages == Extracted(src, pageNumbers)
  {
    newPdf := new Document.Create();
    bad := None;
    var i := 0;
    while i < |pageNumbers|
      invariant 0 <= i <= |pageNumbers|
      invariant AllInRange(pageNumbers[..i], |src|)
      invariant FirstOutOfRange(pageNumbers, |src|) == FirstOutOfRange(pageNumbers[i..], |src|)
      invariant newPdf.pages == Extracted(src, pageNumbers[..i])
    {
      var num := pageNumbers[i];
      assert pageNumbers[i..][0] == num;
      if !(1 <= num <= |src|) {
        bad := Some(num);
        return;
      }
      assert pageNumbers[i..][1..] == pageNumbers[i + 1..];
      assert FirstOutOfRange(pageNumbers[i..], |src|) == FirstOutOfRange(pageNumbers[i + 1..], |src|);
      assert AllInRange([num], |src|);
      ExtractedAppend(src, pageNumbers[..i], [num]);
      assert Extracted(src, [num]) == [src[num - 1]];
      assert pageNumbers[..i + 1] == pageNumbers[..i] + [num];
      newPdf.AddPage(src[num - 1]);
      i := i + 1;
    }
    assert pageNumbers[..i] == pageNumbers;
  }
}
