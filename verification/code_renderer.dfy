/**
 * The `code` renderer of the message bubble: each code element the markdown
 * renderer produces is either inline, or a block whose copy button gets the
 * next extracted body, counted by `codeBlockIndex`. The markdown parse itself
 * is not modelled; the renderer's code elements are an input.
 */
module CodeRenderer {
  import opened Wrappers
  import opened Text
  import opened CodeBlocks

  /** A code element as the renderer hands it over: its `className`, and whether it sits in a `pre`. */
  datatype CodeElement = CodeElement(className: Option<string>, inPre: bool)

  datatype CodeView = InlineCode | BlockCode(copyText: string)

  /** `language-` followed by a word character starts at offset k of `c`. */
  predicate LanguageClassAt(c: string, k: int) {
    0 <= k && k + 10 <= |c| && c[k..k + 9] == "language-" && IsWordChar(c[k + 9])
  }

  /** `/language-(\w+)/` finds a match somewhere in `c`. */
  predicate HasLanguageClass(c: string) {
    exists k :: 0 <= k < |c| && LanguageClassAt(c, k)
  }

  /** A `className` is truthy when present and non-empty. */
  predicate Truthy(className: Option<string>) {
    className.Some? && className.value != ""
  }

  /** `isInline = !match && !className`, with the regex run on `className || ''`. */
  predicate IsInline(e: CodeElement) {
    !HasLanguageClass(if Truthy(e.className) then e.className.value else "") && !Truthy(e.className)
  }

  /** The regex test never decides: an element is inline exactly when it has no (non-empty) class. */
  lemma InlineIffNoClass(e: CodeElement)
    ensures IsInline(e) <==> e.className == None || e.className == Some("")
  {
  }

  /** How many of the flags are set. */
  function CountBlocks(isBlock: seq<bool>): (n: nat)
    ensures n <= |isBlock|
    decreases |isBlock|
  {
    if |isBlock| == 0 then 0
    else CountBlocks(isBlock[..|isBlock| - 1]) + (if isBlock[|isBlock| - 1] then 1 else 0)
  }

  /** `codeBlocks[n] || ''`. */
  function BlockAt(blocks: seq<string>, n: nat): (text: string)
    ensures n < |blocks| ==> text == blocks[n]
    ensures n >= |blocks| ==> text == ""
  {
    if n < |blocks| then blocks[n] else ""
  }

  /** The views as a declarative table: element k, if a block, gets body number "blocks before k". */
  function PairViews(isBlock: seq<bool>, blocks: seq<string>): (views: seq<CodeView>)
    ensures |views| == |isBlock|
  {
    seq(|isBlock|, k requires 0 <= k < |isBlock| =>
      if isBlock[k] then BlockCode(BlockAt(blocks, CountBlocks(isBlock[..k]))) else InlineCode)
  }

  /**
   * The renderer's walk with its mutable `codeBlockIndex`: inline elements
   * leave the counter alone, each block element takes the body at the counter
   * and advances it.
   */
  method RenderCodeElements(isBlock: seq<bool>, blocks: seq<string>) returns (views: seq<CodeView>)
    ensures |views| == |isBlock|
    ensures forall k :: 0 <= k < |isBlock| ==> (views[k] == InlineCode <==> !isBlock[k])
    ensures forall k :: 0 <= k < |isBlock| && isBlock[k] ==>
      views[k] == BlockCode(BlockAt(blocks, CountBlocks(isBlock[..k])))
  {
    var codeBlockIndex := 0;
    views := [];
    var k := 0;
    while k < |isBlock|
      invariant 0 <= k <= |isBlock|
      invariant |views| == k
      invariant codeBlockIndex == CountBlocks(isBlock[..k])
      invariant forall j :: 0 <= j < k ==> (views[j] == InlineCode <==> !isBlock[j])
      invariant forall j :: 0 <= j < k && isBlock[j] ==>
        views[j] == BlockCode(BlockAt(blocks, CountBlocks(isBlock[..j])))
    {
      assert isBlock[..k + 1][..k] == isBlock[..k];
      if isBlock[k] {
        views := views + [BlockCode(BlockAt(blocks, codeBlockIndex))];
        codeBlockIndex := codeBlockIndex + 1;
      } else {
        views := views + [InlineCode];
      }
      k := k + 1;
    }
  }

  /** The method and the table agree. */
  lemma RenderMatchesTable(isBlock: seq<bool>, blocks: seq<string>, views: seq<CodeView>)
    requires |views| == |isBlock|
    requires forall k :: 0 <= k < |isBlock| ==> (views[k] == InlineCode <==> !isBlock[k])
    requires forall k :: 0 <= k < |isBlock| && isBlock[k] ==>
      views[k] == BlockCode(BlockAt(blocks, CountBlocks(isBlock[..k])))
    ensures views == PairViews(isBlock, blocks)
  {
  }

  /** Block elements get strictly increasing body numbers, each below the block count. */
  lemma {:induction false} OrdinalsIncrease(isBlock: seq<bool>, j: nat, k: nat)
    requires j < k <= |isBlock| && isBlock[j]
    ensures CountBlocks(isBlock[..j]) < CountBlocks(isBlock[..k])
    decreases k - j
  {
    assert isBlock[..j + 1][..j] == isBlock[..j];
    if k > j + 1 {
      OrdinalsIncrease(isBlock, j, k - 1);
      assert isBlock[..k][..k - 1] == isBlock[..k - 1];
    }
  }

  /** The classification the source uses: every element that is not inline is a block. */
  function AsWrittenIsBlock(elements: seq<CodeElement>): (isBlock: seq<bool>)
    ensures |isBlock| == |elements|
    ensures forall k :: 0 <= k < |elements| ==> (isBlock[k] <==> Truthy(elements[k].className))
  {
    seq(|elements|, k requires 0 <= k < |elements| => !IsInline(elements[k]))
  }

  /** The intended classification: an element is a block exactly when it is the code of a `pre`. */
  function CorrectedIsBlock(elements: seq<CodeElement>): (isBlock: seq<bool>)
    ensures |isBlock| == |elements|
    ensures forall k :: 0 <= k < |elements| ==> (isBlock[k] <==> elements[k].inPre)
  {
    seq(|elements|, k requires 0 <= k < |elements| => elements[k].inPre)
  }

  /** A message with an untagged fenced block, a blank line, then a `js` block. */
  function UntaggedThenTagged(first: string, second: string): seq<Segment> {
    [Block("", first), Prose("\n\n"), Block("js", second)]
  }

  /** The code elements the markdown renderer produces for it: both are `pre` code, only the second has a class. */
  function UntaggedThenTaggedElements(): seq<CodeElement> {
    [CodeElement(None, true), CodeElement(Some("language-js"), true)]
  }

  /** Bodies that can stand in a fenced block and come out of `trim` unchanged. */
  predicate PlainBody(body: string) {
    NoBacktick(body) && IsTrimmed(body)
  }

  lemma UntaggedThenTaggedBodies(first: string, second: string)
    requires PlainBody(first) && PlainBody(second)
    ensures ExtractCodeBlocks(Render(UntaggedThenTagged(first, second))) == [first, second]
    ensures TrimmedBodies(UntaggedThenTagged(first, second)) == [first, second]
  {
    var doc := UntaggedThenTagged(first, second);
    assert WellFormedSegment(doc[0]) && WellFormedSegment(doc[1]) && WellFormedSegment(doc[2]);
    assert WellFormed(doc);
    ExtractFindsEveryBlock(doc);
    UntaggedThenTaggedTrimmed(first, second);
  }

  lemma UntaggedThenTaggedTrimmed(first: string, second: string)
    requires PlainBody(first) && PlainBody(second)
    ensures TrimmedBodies(UntaggedThenTagged(first, second)) == [first, second]
  {
    var doc := UntaggedThenTagged(first, second);
    TrimKeepsTrimmed(first);
    TrimKeepsTrimmed(second);
    assert doc[1..][1..][1..] == [];
    assert TrimmedBodies(doc[1..][1..]) == [second];
    assert TrimmedBodies(doc[1..]) == [second];
  }

  /**
   * As written: a fence without a language tag gives its `pre` code no class,
   * so it is taken for inline code, the counter does not move, and the `js`
   * block's copy button copies the untagged block's body instead of its own.
   */
  lemma UntaggedFenceShiftsPairing(first: string, second: string)
    requires PlainBody(first) && PlainBody(second)
    ensures PairViews(AsWrittenIsBlock(UntaggedThenTaggedElements()),
                      ExtractCodeBlocks(Render(UntaggedThenTagged(first, second))))
         == [InlineCode, BlockCode(first)]
    ensures TrimmedBodies(UntaggedThenTagged(first, second))[1] == second
  {
    UntaggedThenTaggedBodies(first, second);
    assert AsWrittenIsBlock(UntaggedThenTaggedElements()) == [false, true];
    PairInlineThenBlock(first, second);
  }

  lemma PairInlineThenBlock(first: string, second: string)
    ensures PairViews([false, true], [first, second]) == [InlineCode, BlockCode(first)]
  {
    assert [false, true][..1] == [false];
    assert CountBlocks([false]) == 0;
  }

  /** With the corrected classification the same message pairs each button with its own body. */
  lemma CorrectedFixesExample(first: string, second: string)
    requires PlainBody(first) && PlainBody(second)
    ensures PairViews(CorrectedIsBlock(UntaggedThenTaggedElements()),
                      ExtractCodeBlocks(Render(UntaggedThenTagged(first, second))))
         == [BlockCode(first), BlockCode(second)]
  {
    UntaggedThenTaggedBodies(first, second);
    assert CorrectedIsBlock(UntaggedThenTaggedElements()) == [true, true];
    PairTwoBlocks(first, second);
  }

  lemma PairTwoBlocks(first: string, second: string)
    ensures PairViews([true, true], [first, second]) == [BlockCode(first), BlockCode(second)]
  {
    assert [true, true][..0] == [];
    assert [true, true][..1] == [true];
    assert CountBlocks([true]) == 1;
  }

  /**
   * Corrected: when the renderer emits one `pre` code element per fenced block,
   * in document order, every copy button copies its own block's trimmed body.
   */
  lemma CorrectedPairingCopiesOwnBlock(doc: seq<Segment>, elements: seq<CodeElement>, k: nat)
    requires WellFormed(doc)
    requires CountBlocks(CorrectedIsBlock(elements)) == |TrimmedBodies(doc)|
    requires k < |elements| && elements[k].inPre
    ensures CountBlocks(CorrectedIsBlock(elements)[..k]) < |TrimmedBodies(doc)|
    ensures PairViews(CorrectedIsBlock(elements), ExtractCodeBlocks(Render(doc)))[k]
         == BlockCode(TrimmedBodies(doc)[CountBlocks(CorrectedIsBlock(elements)[..k])])
  {
    var isBlock := CorrectedIsBlock(elements);
    ExtractFindsEveryBlock(doc);
    OrdinalsIncrease(isBlock, k, |isBlock|);
    assert isBlock[..|isBlock|] == isBlock;
  }
}
