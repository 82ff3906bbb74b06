/**
 * The message bubble's text processing over a bot message's raw content:
 * `extractCodeBlocks`, the global scan for fenced code blocks, and
 * `cleanContent`, two regex rewrites followed by `trim`. Each global regex is
 * modelled as a left-to-right scanner over suffixes of the input: a failed
 * attempt retries one position later, a match resumes after its closing fence.
 * The scanners never backtrack, and need not: the greedy `[\w]*` and `\n?`
 * could only give back word characters or a newline, and the lazy body and the
 * closing fence that follow them look for backticks, so giving back never helps.
 */
module CodeBlocks {
  import opened Wrappers
  import opened Text

  /** Three backticks start at offset `k` of `s`. */
  predicate FenceAt(s: string, k: nat) {
    k + 3 <= |s| && s[k] == '`' && s[k + 1] == '`' && s[k + 2] == '`'
  }

  /** The next three characters are backticks. */
  predicate StartsWithFence(s: string) {
    FenceAt(s, 0)
  }

  /** No fence starts anywhere in `s`. */
  predicate NoFence(s: string) {
    forall k: nat :: k <= |s| ==> !FenceAt(s, k)
  }

  /** The end of the run of `\w` characters starting at offset `j` (the greedy `\w*`). */
  function WordEnd(s: string, j: nat): (e: nat)
    requires j <= |s|
    ensures j <= e <= |s|
    ensures forall i :: j <= i < e ==> IsWordChar(s[i])
    ensures e < |s| ==> !IsWordChar(s[e])
    decreases |s| - j
  {
    if j < |s| && IsWordChar(s[j]) then WordEnd(s, j + 1) else j
  }

  /** The first fence at or after offset `j`: where the lazy `[\s\S]*?` stops. */
  function FenceFrom(s: string, j: nat): (r: Option<nat>)
    ensures r.Some? ==> j <= r.value && FenceAt(s, r.value)
    ensures r.Some? ==> forall k: nat :: j <= k < r.value ==> !FenceAt(s, k)
    ensures r.None? ==> forall k: nat :: j <= k ==> !FenceAt(s, k)
    decreases |s| - j
  {
    if j + 3 > |s| then None
    else if FenceAt(s, j) then Some(j)
    else FenceFrom(s, j + 1)
  }

  /** Where the body of ```` ```[\w]*\n? ```` starts: after the fence, the word run and one optional newline. */
  function BodyStart(s: string): (p: nat)
    requires StartsWithFence(s)
    ensures 3 <= p <= |s|
  {
    var w := WordEnd(s, 3);
    if w < |s| && s[w] == '\n' then w + 1 else w
  }

  /** Where a body runs in `s`: from `start` up to, not including, `end`. */
  datatype Span = Span(start: nat, end: nat)

  /**
   * A match of ```` ```[\w]*\n?([\s\S]*?)``` ```` at the front of `s`: the span of
   * its body, which the closing fence follows.
   */
  function BlockMatch(s: string): (m: Option<Span>)
    ensures m.Some? ==> StartsWithFence(s) && m.value.start == BodyStart(s)
    ensures m.Some? ==> m.value.start <= m.value.end && FenceAt(s, m.value.end)
  {
    if !StartsWithFence(s) then None
    else
      var p := BodyStart(s);
      match FenceFrom(s, p)
      case Some(q) => Some(Span(p, q))
      case None => None
  }

  /**
   * The lazy body is the shortest one: no fence starts inside it, and when
   * there is no match at an opening fence, no fence follows the body start at all.
   */
  lemma BlockMatchIsShortest(s: string)
    ensures BlockMatch(s).Some? ==>
      forall k: nat :: BlockMatch(s).value.start <= k < BlockMatch(s).value.end ==> !FenceAt(s, k)
    ensures BlockMatch(s).None? && StartsWithFence(s) ==>
      forall k: nat :: BodyStart(s) <= k ==> !FenceAt(s, k)
  {
  }

  /**
   * The captured group `match[1]` of every match of
   * ```` /```[\w]*\n?([\s\S]*?)```/g ````, in the order `exec` finds them,
   * before trimming.
   */
  function MatchedBodies(s: string): seq<string>
    decreases |s|
  {
    if |s| < 3 then []
    else
      match BlockMatch(s)
      case Some(m) => [s[m.start..m.end]] + MatchedBodies(s[m.end + 3..])
      case None => MatchedBodies(s[1..])
  }

  /** `.trim()` of each body, in order. */
  function TrimEach(bodies: seq<string>): (trimmed: seq<string>)
    ensures |trimmed| == |bodies|
    ensures forall k :: 0 <= k < |bodies| ==> trimmed[k] == Trim(bodies[k])
  {
    seq(|bodies|, k requires 0 <= k < |bodies| => Trim(bodies[k]))
  }

  lemma TrimEachCons(body: string, bodies: seq<string>)
    ensures TrimEach([body] + bodies) == [Trim(body)] + TrimEach(bodies)
  {
    var l := TrimEach([body] + bodies);
    var r := [Trim(body)] + TrimEach(bodies);
    forall k | 0 <= k < |l| ensures l[k] == r[k] {
      if k > 0 {
        assert ([body] + bodies)[k] == bodies[k - 1];
      }
    }
  }

  /** `extractCodeBlocks`: each captured body, trimmed, pushed in match order. */
  function ExtractCodeBlocks(s: string): (blocks: seq<string>)
    ensures forall k :: 0 <= k < |blocks| ==> IsTrimmed(blocks[k])
  {
    TrimEach(MatchedBodies(s))
  }

  /** The scan at a block whose body spans `m` captures that body and resumes after the closing fence. */
  lemma MatchAt(s: string, m: Span)
    requires BlockMatch(s) == Some(m)
    ensures m.end + 3 <= |s|
    ensures MatchedBodies(s) == [s[m.start..m.end]] + MatchedBodies(s[m.end + 3..])
  {
  }

  /** Where no block starts, the scan moves on by one position. */
  lemma MatchMisses(s: string)
    requires |s| >= 3 && BlockMatch(s).None?
    ensures MatchedBodies(s) == MatchedBodies(s[1..])
  {
  }

  /** Each match consumes at least its two fences, so there are at most |s| / 6 blocks. */
  lemma {:induction false} ExtractBound(s: string)
    ensures 6 * |ExtractCodeBlocks(s)| <= |s|
    decreases |s|
  {
    if |s| >= 3 {
      if BlockMatch(s).Some? {
        var m := BlockMatch(s).value;
        MatchAt(s, m);
        ExtractBound(s[m.end + 3..]);
      } else {
        MatchMisses(s);
        ExtractBound(s[1..]);
      }
    }
  }

  /** Content in which no fence starts yields no blocks. */
  lemma {:induction false} NoFenceNoBlocks(s: string)
    requires NoFence(s)
    ensures ExtractCodeBlocks(s) == []
    decreases |s|
  {
    if |s| >= 3 {
      assert NoFence(s[1..]) by {
        forall k: nat | k <= |s[1..]| ensures !FenceAt(s[1..], k) {
          assert !FenceAt(s, k + 1);
        }
      }
      MatchMisses(s);
      NoFenceNoBlocks(s[1..]);
    }
  }

  // ---------------------------------------------------------------------------
  // Well-formed message content: prose without backticks and fenced blocks

  /** A piece of message content: backtick-free prose, or a fenced block ```` ```tag\nbody``` ````. */
  datatype Segment = Prose(text: string) | Block(tag: string, body: string)

  /**
   * A body the lazy `[\s\S]*?` reads to its end: it holds no three backticks
   * in a row and does not end in a backtick that would run into the closing
   * fence. Single backticks, as in template literals or `` `cmd` ``, are allowed.
   */
  predicate FenceFreeBody(body: string) {
    NoFence(body) && (|body| == 0 || body[|body| - 1] != '`')
  }

  predicate WellFormedSegment(seg: Segment) {
    match seg
    case Prose(text) => NoBacktick(text)
    case Block(tag, body) => AllWord(tag) && FenceFreeBody(body)
  }

  /** A body without backticks is fence-free. */
  lemma NoBacktickIsFenceFree(body: string)
    requires NoBacktick(body)
    ensures FenceFreeBody(body)
  {
  }

  predicate WellFormed(doc: seq<Segment>) {
    forall i :: 0 <= i < |doc| ==> WellFormedSegment(doc[i])
  }

  function Fenced(tag: string, body: string): string {
    "```" + tag + "\n" + body + "```"
  }

  function RenderSegment(seg: Segment): string {
    match seg
    case Prose(text) => text
    case Block(tag, body) => Fenced(tag, body)
  }

  /** The content text the segments spell out. */
  function Render(doc: seq<Segment>): string
    decreases |doc|
  {
    if |doc| == 0 then "" else RenderSegment(doc[0]) + Render(doc[1..])
  }

  /** The trimmed bodies of the blocks, in document order. */
  function TrimmedBodies(doc: seq<Segment>): seq<string>
    decreases |doc|
  {
    if |doc| == 0 then []
    else if doc[0].Block? then [Trim(doc[0].body)] + TrimmedBodies(doc[1..])
    else TrimmedBodies(doc[1..])
  }

  /** The word run from `j` ends at the first non-word character `e`. */
  lemma {:induction false} WordEndAt(s: string, j: nat, e: nat)
    requires j <= e < |s| && !IsWordChar(s[e])
    requires forall i :: j <= i < e ==> IsWordChar(s[i])
    ensures WordEnd(s, j) == e
    decreases e - j
  {
    if j < e {
      WordEndAt(s, j + 1, e);
    }
  }

  /** With no fence starting in between, the search from `j` stops at the fence at `q`. */
  lemma {:induction false} FenceFromAt(s: string, j: nat, q: nat)
    requires j <= q && FenceAt(s, q)
    requires forall k: nat :: j <= k < q ==> !FenceAt(s, k)
    ensures FenceFrom(s, j) == Some(q)
    decreases q - j
  {
    if j < q {
      assert !FenceAt(s, j);
      FenceFromAt(s, j + 1, q);
    }
  }

  /** Splitting off the first character of a nonempty front part. */
  lemma ConsSplit(t: string, x: string)
    requires |t| > 0
    ensures (t + x)[0] == t[0] && (t + x)[1..] == t[1..] + x
    ensures t + x == [t[0]] + (t[1..] + x)
  {
  }

  /** A scan position that does not hold a backtick is passed over. */
  lemma MatchPassesPlainChar(s: string)
    requires |s| > 0 && s[0] != '`'
    ensures MatchedBodies(s) == MatchedBodies(s[1..])
  {
    if |s| < 3 {
      assert |s[1..]| < 3;
    } else {
      MatchMisses(s);
    }
  }

  lemma {:induction false} MatchesSkipProse(text: string, rest: string)
    requires NoBacktick(text)
    ensures MatchedBodies(text + rest) == MatchedBodies(rest)
    decreases |text|
  {
    if |text| > 0 {
      ConsSplit(text, rest);
      MatchPassesPlainChar(text + rest);
      assert NoBacktick(text[1..]);
      MatchesSkipProse(text[1..], rest);
    } else {
      assert text + rest == rest;
    }
  }

  /** Backtick-free prose in front of the content changes nothing the scan finds. */
  lemma ExtractSkipsProse(text: string, rest: string)
    requires NoBacktick(text)
    ensures ExtractCodeBlocks(text + rest) == ExtractCodeBlocks(rest)
  {
    MatchesSkipProse(text, rest);
  }

  /** Where the pieces of a fenced block followed by `rest` sit in the concatenated text. */
  lemma FencedLayout(tag: string, body: string, rest: string)
    ensures var s := Fenced(tag, body) + rest;
      var p := 4 + |tag|;
      && StartsWithFence(s)
      && |s| == p + |body| + 3 + |rest|
      && (forall i :: 0 <= i < |tag| ==> s[3 + i] == tag[i])
      && s[3 + |tag|] == '\n'
      && (forall i :: 0 <= i < |body| ==> s[p + i] == body[i])
      && FenceAt(s, p + |body|)
      && s[p..p + |body|] == body
      && s[..p + |body|] == "```" + tag + "\n" + body
      && s[p + |body| + 3..] == rest
  {
  }

  /** The tag of a fenced block ends at its newline, so the body starts right after it. */
  lemma FencedBodyStart(tag: string, body: string, rest: string)
    requires AllWord(tag)
    ensures StartsWithFence(Fenced(tag, body) + rest)
    ensures WordEnd(Fenced(tag, body) + rest, 3) == 3 + |tag|
    ensures BodyStart(Fenced(tag, body) + rest) == 4 + |tag|
  {
    var s := Fenced(tag, body) + rest;
    FencedLayout(tag, body, rest);
    forall i | 3 <= i < 3 + |tag| ensures IsWordChar(s[i]) {
      assert s[3 + (i - 3)] == tag[i - 3];
    }
    WordEndAt(s, 3, 3 + |tag|);
  }

  /** The body of a fenced block is followed by the first fence after its start. */
  lemma FencedClose(tag: string, body: string, rest: string)
    requires FenceFreeBody(body)
    ensures FenceFrom(Fenced(tag, body) + rest, 4 + |tag|) == Some(4 + |tag| + |body|)
  {
    var s := Fenced(tag, body) + rest;
    var p := 4 + |tag|;
    var e := p + |body|;
    FencedLayout(tag, body, rest);
    forall k: nat | p <= k < e ensures !FenceAt(s, k) {
      if k + 3 <= e {
        assert !FenceAt(body, k - p);
        assert s[k] == body[k - p] && s[k + 1] == body[k + 1 - p] && s[k + 2] == body[k + 2 - p];
      } else {
        assert s[e - 1] == body[|body| - 1];
      }
    }
    FenceFromAt(s, p, e);
  }

  lemma MatchBlock(tag: string, body: string, rest: string)
    requires AllWord(tag) && FenceFreeBody(body)
    ensures MatchedBodies(Fenced(tag, body) + rest) == [body] + MatchedBodies(rest)
  {
    var s := Fenced(tag, body) + rest;
    FencedLayout(tag, body, rest);
    FencedBodyStart(tag, body, rest);
    FencedClose(tag, body, rest);
    assert BlockMatch(s) == Some(Span(4 + |tag|, 4 + |tag| + |body|));
    MatchAt(s, Span(4 + |tag|, 4 + |tag| + |body|));
  }

  /** A fenced block at the front yields its trimmed body, then the scan resumes after it. */
  lemma ExtractBlock(tag: string, body: string, rest: string)
    requires AllWord(tag) && FenceFreeBody(body)
    ensures ExtractCodeBlocks(Fenced(tag, body) + rest) == [Trim(body)] + ExtractCodeBlocks(rest)
  {
    MatchBlock(tag, body, rest);
    TrimEachCons(body, MatchedBodies(rest));
  }

  /** One trimmed body per fenced block, in document order, and nothing else. */
  lemma {:induction false} ExtractFindsEveryBlock(doc: seq<Segment>)
    requires WellFormed(doc)
    ensures ExtractCodeBlocks(Render(doc)) == TrimmedBodies(doc)
    decreases |doc|
  {
    if |doc| > 0 {
      assert WellFormedSegment(doc[0]);
      assert WellFormed(doc[1..]) by {
        forall i | 0 <= i < |doc[1..]| ensures WellFormedSegment(doc[1..][i]) {
          assert doc[1..][i] == doc[i + 1];
        }
      }
      ExtractFindsEveryBlock(doc[1..]);
      match doc[0]
      case Prose(text) => ExtractSkipsProse(text, Render(doc[1..]));
      case Block(tag, body) => ExtractBlock(tag, body, Render(doc[1..]));
    }
  }

  /** A body holding a template literal is found whole: single backticks do not end it. */
  lemma TemplateLiteralBody()
    ensures ExtractCodeBlocks(Fenced("js", "f(`a`)")) == ["f(`a`)"]
  {
    var doc := [Block("js", "f(`a`)")];
    assert WellFormedSegment(doc[0]);
    ExtractFindsEveryBlock(doc);
    assert Render(doc) == Fenced("js", "f(`a`)");
    assert Trim("f(`a`)") == "f(`a`)" by {
      TrimKeepsTrimmed("f(`a`)");
    }
  }

  /** Two fenced blocks with bodies "a" and "b", between any prose, give ["a", "b"]. */
  lemma TwoBlocks(before: string, tag1: string, between: string, tag2: string, after: string)
    requires NoBacktick(before) && NoBacktick(between) && NoBacktick(after)
    requires AllWord(tag1) && AllWord(tag2)
    ensures ExtractCodeBlocks(before + Fenced(tag1, "a") + between + Fenced(tag2, "b") + after)
         == ["a", "b"]
  {
    var tail := between + (Fenced(tag2, "b") + after);
    assert before + Fenced(tag1, "a") + between + Fenced(tag2, "b") + after
        == before + (Fenced(tag1, "a") + tail);
    ExtractSkipsProse(before, Fenced(tag1, "a") + tail);
    NoBacktickIsFenceFree("a");
    ExtractBlock(tag1, "a", tail);
    TrimKeepsTrimmed("a");
    OneBlock(between, tag2, "b", after);
  }

  lemma OneBlock(before: string, tag: string, body: string, after: string)
    requires NoBacktick(before) && NoBacktick(after) && AllWord(tag)
    requires NoBacktick(body) && IsTrimmed(body)
    ensures ExtractCodeBlocks(before + (Fenced(tag, body) + after)) == [body]
  {
    ExtractSkipsProse(before, Fenced(tag, body) + after);
    NoBacktickIsFenceFree(body);
    ExtractBlock(tag, body, after);
    assert after + "" == after;
    ExtractSkipsProse(after, "");
    TrimKeepsTrimmed(body);
  }

  /**
   * The greedy tag run eats a body written on the fence line: three backticks,
   * a word, and three backticks give one empty body, e.g. for ```` ```abc``` ````.
   */
  lemma TagRunSwallowsInlineBody(word: string)
    requires AllWord(word)
    ensures ExtractCodeBlocks("```" + word + "```") == [""]
  {
    var s := "```" + word + "```";
    var w := 3 + |word|;
    forall i | 3 <= i < w ensures IsWordChar(s[i]) {
      assert s[i] == word[i - 3];
    }
    assert s[w] == '`';
    WordEndAt(s, 3, w);
    assert BodyStart(s) == w;
    assert FenceAt(s, w);
    assert FenceFrom(s, w) == Some(w);
    MatchAt(s, Span(w, w));
    assert s[w..w] == "";
    assert s[w + 3..] == "";
    assert MatchedBodies(s) == [""];
    TrimKeepsTrimmed("");
  }

  // ---------------------------------------------------------------------------
  // cleanContent

  /** The end of the run of non-backtick characters starting at offset `j` (`[^`]+` takes all of it). */
  function PlainEnd(s: string, j: nat): (e: nat)
    requires j <= |s|
    ensures j <= e <= |s|
    ensures forall i :: j <= i < e ==> s[i] != '`'
    ensures e < |s| ==> s[e] == '`'
    decreases |s| - j
  {
    if j < |s| && s[j] != '`' then PlainEnd(s, j + 1) else j
  }

  /** The length of the run matched by `` `([^`]+)` `` at the front of `s`, if any. */
  function InlineCodeMatch(s: string): (r: Option<nat>)
    ensures r.Some? ==> 1 <= r.value && r.value + 2 <= |s|
    ensures r.Some? ==> s[0] == '`' && NoBacktick(s[1..1 + r.value]) && s[1 + r.value] == '`'
  {
    if |s| == 0 || s[0] != '`' then None
    else
      var n := PlainEnd(s, 1) - 1;
      if n >= 1 && 1 + n < |s| then Some(n) else None
  }

  /** The first rewrite, `` /`([^`]+)`/g `` replaced by `` '`$1`' ``. */
  function RewriteInlineCode(s: string): string
    decreases |s|
  {
    if |s| == 0 then ""
    else
      var m := InlineCodeMatch(s);
      if m.Some? then "`" + s[1..1 + m.value] + "`" + RewriteInlineCode(s[m.value + 2..])
      else [s[0]] + RewriteInlineCode(s[1..])
  }

  /** The replacement `` '`$1`' `` spells out the matched text again. */
  lemma InlineReplacementIsMatch(s: string, n: nat)
    requires InlineCodeMatch(s) == Some(n)
    ensures "`" + s[1..1 + n] + "`" == s[..n + 2]
  {
    var r := "`" + s[1..1 + n] + "`";
    assert |r| == n + 2;
    forall i | 0 <= i < n + 2 ensures r[i] == s[i] {
      if 0 < i < n + 1 {
        assert r[i] == s[1..1 + n][i - 1];
      }
    }
  }

  lemma RewriteInlineCodeAtMatch(s: string, n: nat)
    requires |s| > 0 && InlineCodeMatch(s) == Some(n)
    ensures RewriteInlineCode(s) == s[..n + 2] + RewriteInlineCode(s[n + 2..])
  {
    InlineReplacementIsMatch(s, n);
  }

  /** The first rewrite puts back exactly what it matched: it is the identity. */
  lemma {:induction false} RewriteInlineCodeIsIdentity(s: string)
    ensures RewriteInlineCode(s) == s
    decreases |s|
  {
    if |s| > 0 {
      var m := InlineCodeMatch(s);
      if m.Some? {
        RewriteInlineCodeAtMatch(s, m.value);
        RewriteInlineCodeIsIdentity(s[m.value + 2..]);
        assert s == s[..m.value + 2] + s[m.value + 2..];
      } else {
        RewriteInlineCodeIsIdentity(s[1..]);
        assert s == [s[0]] + s[1..];
      }
    }
  }

  /**
   * A match of ```` ```(\w*)\n([\s\S]*?)``` ```` at the front of `s`: the offset
   * of its closing fence.
   */
  function FenceMatch(s: string): (q: Option<nat>)
    ensures q.Some? ==> StartsWithFence(s) && 3 < q.value && FenceAt(s, q.value)
  {
    if !StartsWithFence(s) then None
    else
      var w := WordEnd(s, 3);
      if w < |s| && s[w] == '\n' then FenceFrom(s, w + 1) else None
  }

  /** A match has a newline right after the tag run, and its body starts after that newline. */
  lemma FenceMatchNeedsNewline(s: string)
    ensures FenceMatch(s).Some? ==>
      var w := WordEnd(s, 3);
      w < FenceMatch(s).value && s[w] == '\n'
  {
  }

  /**
   * The second rewrite, ```` /```(\w*)\n([\s\S]*?)```/g ```` replaced by
   * ```` '```$1\n$2\n```' ````: a newline goes in before each closing fence.
   * The newline after the tag is mandatory here.
   */
  function RewriteFences(s: string): string
    decreases |s|
  {
    if |s| < 3 then s
    else
      match FenceMatch(s)
      case Some(q) => s[..q] + "\n```" + RewriteFences(s[q + 3..])
      case None => [s[0]] + RewriteFences(s[1..])
  }

  /** `cleanContent`: both rewrites, then `trim`. */
  function CleanContent(content: string): (cleaned: string)
    ensures IsTrimmed(cleaned)
  {
    Trim(RewriteFences(RewriteInlineCode(content)))
  }

  /** Every block body gains one trailing newline. */
  function AddClosingNewlines(doc: seq<Segment>): (out: seq<Segment>)
    ensures |out| == |doc|
    ensures forall i :: 0 <= i < |doc| ==>
      (doc[i].Prose? ==> out[i] == doc[i]) && (doc[i].Block? ==> out[i] == Block(doc[i].tag, doc[i].body + "\n"))
  {
    seq(|doc|, i requires 0 <= i < |doc| =>
      if doc[i].Block? then Block(doc[i].tag, doc[i].body + "\n") else doc[i])
  }

  /** The second rewrite copies a character that is not a backtick. */
  lemma RewritePassesPlainChar(s: string)
    requires |s| > 0 && s[0] != '`'
    ensures RewriteFences(s) == [s[0]] + RewriteFences(s[1..])
  {
    if |s| < 3 {
      assert |s[1..]| < 3;
      assert s == [s[0]] + s[1..];
    }
  }

  lemma {:induction false} RewriteFencesSkipsProse(text: string, rest: string)
    requires NoBacktick(text)
    ensures RewriteFences(text + rest) == text + RewriteFences(rest)
    decreases |text|
  {
    if |text| > 0 {
      ConsSplit(text, rest);
      ConsSplit(text, RewriteFences(rest));
      RewritePassesPlainChar(text + rest);
      assert NoBacktick(text[1..]);
      RewriteFencesSkipsProse(text[1..], rest);
    } else {
      assert text + rest == rest;
    }
  }

  /** The second rewrite at a match whose closing fence is at `q`. */
  lemma RewriteFencesAtMatch(s: string, q: nat)
    requires FenceMatch(s) == Some(q)
    ensures q + 3 <= |s|
    ensures RewriteFences(s) == s[..q] + "\n```" + RewriteFences(s[q + 3..])
  {
  }

  lemma RewriteFencesBlock(tag: string, body: string, rest: string)
    requires AllWord(tag) && FenceFreeBody(body)
    ensures RewriteFences(Fenced(tag, body) + rest) == Fenced(tag, body + "\n") + RewriteFences(rest)
  {
    var s := Fenced(tag, body) + rest;
    FencedLayout(tag, body, rest);
    FencedBodyStart(tag, body, rest);
    FencedClose(tag, body, rest);
    assert FenceMatch(s) == Some(4 + |tag| + |body|);
    RewriteFencesAtMatch(s, 4 + |tag| + |body|);
  }

  /** On well-formed content the second rewrite adds one newline before each closing fence. */
  lemma {:induction false} RewriteFencesAddsNewlines(doc: seq<Segment>)
    requires WellFormed(doc)
    ensures RewriteFences(Render(doc)) == Render(AddClosingNewlines(doc))
    decreases |doc|
  {
    if |doc| > 0 {
      assert WellFormedSegment(doc[0]);
      assert WellFormed(doc[1..]) by {
        forall i | 0 <= i < |doc[1..]| ensures WellFormedSegment(doc[1..][i]) {
          assert doc[1..][i] == doc[i + 1];
        }
      }
      RewriteFencesAddsNewlines(doc[1..]);
      assert AddClosingNewlines(doc)[1..] == AddClosingNewlines(doc[1..]);
      match doc[0]
      case Prose(text) => RewriteFencesSkipsProse(text, Render(doc[1..]));
      case Block(tag, body) => RewriteFencesBlock(tag, body, Render(doc[1..]));
    }
  }

  /** `cleanContent` of well-formed content: the same content with one newline before each closing fence, trimmed. */
  lemma CleanContentOfDocument(doc: seq<Segment>)
    requires WellFormed(doc)
    ensures CleanContent(Render(doc)) == Trim(Render(AddClosingNewlines(doc)))
  {
    RewriteInlineCodeIsIdentity(Render(doc));
    RewriteFencesAddsNewlines(doc);
  }

  /**
   * The extra newlines change no extracted body, so scanning the cleaned
   * content would find the same bodies as scanning the raw content.
   */
  lemma {:induction false} CleaningKeepsBodies(doc: seq<Segment>)
    ensures TrimmedBodies(AddClosingNewlines(doc)) == TrimmedBodies(doc)
    decreases |doc|
  {
    if |doc| > 0 {
      assert AddClosingNewlines(doc)[1..] == AddClosingNewlines(doc[1..]);
      CleaningKeepsBodies(doc[1..]);
      if doc[0].Block? {
        TrimIgnoresTrailingNewline(doc[0].body);
      }
    }
  }
}
