/** PdfTextExtractor.ExtractText: the pages of a PDF, with blank pages dropped. */
module PdfTextExtractor {
  import opened Wrappers
  import opened Strings
  import opened Entities

  /** A page whose text is null, empty or white space only. */
  predicate IsBlank(p: Page) {
    IsNullOrWhiteSpace(p.text)
  }

  /** What one page contributes: nothing if it is blank, otherwise its own
      number and its text. */
  function Emit(p: Page): seq<(int, string)> {
    if IsBlank(p) then [] else [(p.number, p.text.value)]
  }

  /** The lazy foreach/yield over the pages of the document. */
  function ExtractText(pages: seq<Page>): (r: seq<(int, string)>)
    ensures |r| <= |pages|
    ensures forall k | 0 <= k < |r| :: !IsNullOrWhiteSpace(Some(r[k].1))
    decreases |pages|
  {
    if pages == [] then [] else Emit(pages[0]) + ExtractText(pages[1..])
  }

  /** Extracting from a document one page longer adds exactly what that last
      page contributes. */
  lemma {:induction false} ExtractTextSnoc(pages: seq<Page>, p: Page)
    ensures ExtractText(pages + [p]) == ExtractText(pages) + Emit(p)
    decreases |pages|
  {
    if pages == [] {
      assert [p][1..] == [];
    } else {
      assert (pages + [p])[1..] == pages[1..] + [p];
      ExtractTextSnoc(pages[1..], p);
    }
  }

  /** The indices of the non-blank pages, in increasing order. */
  function KeptPages(pages: seq<Page>): seq<nat>
    decreases |pages|
  {
    if pages == [] then []
    else
      var n := |pages| - 1;
      KeptPages(pages[..n]) + (if IsBlank(pages[n]) then [] else [n])
  }

  /** The facts about KeptPages that ExtractTextFollowsPages relies on. */
  lemma {:induction false} KeptPagesAreTheNonBlankPages(pages: seq<Page>)
    ensures forall k | 0 <= k < |KeptPages(pages)| :: KeptPages(pages)[k] < |pages|
    ensures forall k, l | 0 <= k < l < |KeptPages(pages)| :: KeptPages(pages)[k] < KeptPages(pages)[l]
    ensures forall j | 0 <= j < |pages| :: !IsBlank(pages[j]) <==> j in KeptPages(pages)
    decreases |pages|
  {
    if pages != [] {
      var n := |pages| - 1;
      KeptPagesAreTheNonBlankPages(pages[..n]);
    }
  }

  /** The output is the subsequence of the non-blank pages: its k-th pair is
      the number and unchanged text of the KeptPages(pages)[k]-th page, the
      kept indices increase (order is kept and no page is emitted twice), and
      a page is kept if and only if it is not blank. Page numbers are the
      pages' own, not positions in the output. */
  lemma {:induction false} ExtractTextFollowsPages(pages: seq<Page>)
    ensures |ExtractText(pages)| == |KeptPages(pages)|
    ensures forall k | 0 <= k < |KeptPages(pages)| ::
      KeptPages(pages)[k] < |pages| && !IsBlank(pages[KeptPages(pages)[k]]) &&
      ExtractText(pages)[k] == (pages[KeptPages(pages)[k]].number, pages[KeptPages(pages)[k]].text.value)
    ensures forall k, l | 0 <= k < l < |KeptPages(pages)| :: KeptPages(pages)[k] < KeptPages(pages)[l]
    ensures forall j | 0 <= j < |pages| :: !IsBlank(pages[j]) <==> j in KeptPages(pages)
    decreases |pages|
  {
    KeptPagesAreTheNonBlankPages(pages);
    if pages != [] {
      var n := |pages| - 1;
      assert pages == pages[..n] + [pages[n]];
      ExtractTextSnoc(pages[..n], pages[n]);
      ExtractTextFollowsPages(pages[..n]);
    }
  }

  /** No page is lost unless it is blank: the output is as long as the input
      exactly when no page is blank. */
  lemma {:induction false} ExtractTextKeepsAllIffNoneBlank(pages: seq<Page>)
    ensures |ExtractText(pages)| == |pages| <==> forall j | 0 <= j < |pages| :: !IsBlank(pages[j])
    decreases |pages|
  {
    if pages != [] {
      ExtractTextKeepsAllIffNoneBlank(pages[1..]);
      assert forall j | 1 <= j < |pages| :: pages[j] == pages[1..][j - 1];
    }
  }

  /** A document whose pages are all blank yields the empty sequence, and
      only such a document does. */
  lemma {:induction false} ExtractTextEmptyIffAllBlank(pages: seq<Page>)
    ensures ExtractText(pages) == [] <==> forall j | 0 <= j < |pages| :: IsBlank(pages[j])
    decreases |pages|
  {
    if pages != [] {
      ExtractTextEmptyIffAllBlank(pages[1..]);
      assert forall j | 1 <= j < |pages| :: pages[j] == pages[1..][j - 1];
    }
  }

  /** A two-page document whose second page is empty yields one pair, for
      page 1. */
  lemma TwoPageExample()
    ensures ExtractText([Page(1, Some("Alpha content")), Page(2, Some(""))]) == [(1, "Alpha content")]
  {
    var pages := [Page(1, Some("Alpha content")), Page(2, Some(""))];
    assert !IsWhiteSpace(pages[0].text.value[0]);
    assert pages[1..][1..] == [];
  }
}
