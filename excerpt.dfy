/**
 * The excerpt shown for a post in a listing: its first paragraph, shortened
 * to a length budget at a word boundary where there is one.
 */
module Excerpt {
  import opened Wrappers

  /** A paragraph break, a blank line, starts at position `i` of `s`. */
  predicate BreakAt(s: string, i: int) {
    0 <= i && i + 1 < |s| && s[i] == '\n' && s[i + 1] == '\n'
  }

  /** The first paragraph break at or after position `from`. */
  function FirstBreak(s: string, from: nat): (r: Option<nat>)
    requires from <= |s|
    ensures r.Some? ==> from <= r.value && BreakAt(s, r.value)
    ensures forall i :: from <= i && (r.None? || i < r.value) ==> !BreakAt(s, i)
    decreases |s| - from
  {
    if from + 1 >= |s| then None
    else if BreakAt(s, from) then Some(from)
    else FirstBreak(s, from + 1)
  }

  /** The last space at or before position `k` of `s`. */
  function LastSpaceAtOrBefore(s: string, k: nat): (r: Option<nat>)
    requires k < |s|
    ensures r.Some? ==> r.value <= k && s[r.value] == ' '
    ensures forall i :: (if r.Some? then r.value < i else 0 <= i) && i <= k ==> s[i] != ' '
    decreases k
  {
    if s[k] == ' ' then Some(k)
    else if k == 0 then None
    else LastSpaceAtOrBefore(s, k - 1)
  }

  /** The text before the first paragraph break, or all of it when there is none. */
  function FirstParagraph(text: string): (p: string)
    ensures p <= text
    ensures forall i :: !BreakAt(p, i)
    ensures forall i :: 0 <= i < |p| ==> !BreakAt(text, i)
    ensures |p| < |text| ==> BreakAt(text, |p|)
  {
    match FirstBreak(text, 0)
    case Some(b) =>
      assert forall i :: BreakAt(text[..b], i) ==> BreakAt(text, i);
      text[..b]
    case None =>
      text
  }

  /**
   * The first paragraph of `text`, kept whole when it fits in `maxLength`
   * characters; otherwise cut before the last space at or before position
   * `maxLength`, or at `maxLength` itself when there is no such space. A budget
   * that is not positive gives the empty excerpt.
   */
  function ExtractFirstParagraph(text: string, maxLength: int): (r: string)
    ensures r <= FirstParagraph(text) && r <= text
    ensures maxLength <= 0 ==> r == []
    ensures |r| <= maxLength || r == []
    ensures |FirstParagraph(text)| <= maxLength ==> r == FirstParagraph(text)
    ensures 0 <= maxLength < |FirstParagraph(text)| ==>
      var p := FirstParagraph(text);
      || (p[|r|] == ' ' && forall i :: |r| < i <= maxLength ==> p[i] != ' ')
      || (|r| == maxLength && forall i :: 0 <= i <= maxLength ==> p[i] != ' ')
  {
    var p := FirstParagraph(text);
    if |p| <= maxLength then p
    else if maxLength < 0 then []
    else
      match LastSpaceAtOrBefore(p, maxLength)
      case Some(i) => p[..i]
      case None => p[..maxLength]
  }

  /** A paragraph longer than the budget with no space in it is cut hard at the budget. */
  lemma HardCutExample()
    ensures ExtractFirstParagraph("xxxxx", 2) == "xx"
  {
    assert FirstBreak("xxxxx", 0) == None;
    assert LastSpaceAtOrBefore("xxxxx", 2) == None;
  }

  /** The paragraph break ends the excerpt although the budget is not used up. */
  lemma ParagraphBreakExample()
    ensures ExtractFirstParagraph("xx\n\nxxx", 20) == "xx"
  {
    assert FirstBreak("xx\n\nxxx", 0) == Some(2);
  }

  /** Within the first paragraph, the cut falls at the last word boundary inside the budget. */
  lemma WordBoundaryExample()
    ensures ExtractFirstParagraph("xx xx\n\nxxx", 4) == "xx"
  {
    assert FirstBreak("xx xx\n\nxxx", 0) == Some(5);
    assert FirstParagraph("xx xx\n\nxxx") == "xx xx";
    assert LastSpaceAtOrBefore("xx xx", 4) == Some(2);
  }
}
