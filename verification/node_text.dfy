/**
 * `extractTextFromChildren`: the text of a React children value. Strings are
 * text, arrays concatenate their elements' texts, an object with `props`
 * contributes the text of `props.children`, and anything else is empty.
 * The source defines this helper but never calls it.
 */
module NodeText {

  datatype Node =
    | Str(text: string)
    | Many(items: seq<Node>)
    | Element(children: Node)
    | Opaque

  function Concat(parts: seq<string>): string
    decreases |parts|
  {
    if |parts| == 0 then "" else parts[0] + Concat(parts[1..])
  }

  function TextOf(n: Node): string
    decreases n
  {
    match n
    case Str(text) => text
    case Many(items) => Concat(seq(|items|, i requires 0 <= i < |items| => TextOf(items[i])))
    case Element(children) => TextOf(children)
    case Opaque => ""
  }

  function ConcatAll(xss: seq<seq<string>>): seq<string>
    decreases |xss|
  {
    if |xss| == 0 then [] else xss[0] + ConcatAll(xss[1..])
  }

  /** The string leaves of a children value, left to right. */
  function Leaves(n: Node): seq<string>
    decreases n
  {
    match n
    case Str(text) => [text]
    case Many(items) => ConcatAll(seq(|items|, i requires 0 <= i < |items| => Leaves(items[i])))
    case Element(children) => Leaves(children)
    case Opaque => []
  }

  lemma {:induction false} ConcatAppend(a: seq<string>, b: seq<string>)
    ensures Concat(a + b) == Concat(a) + Concat(b)
    decreases |a|
  {
    if |a| > 0 {
      assert (a + b)[1..] == a[1..] + b;
      ConcatAppend(a[1..], b);
    } else {
      assert a + b == b;
    }
  }

  lemma {:induction false} ConcatOfConcatAll(xss: seq<seq<string>>)
    ensures Concat(ConcatAll(xss)) == Concat(seq(|xss|, i requires 0 <= i < |xss| => Concat(xss[i])))
    decreases |xss|
  {
    if |xss| > 0 {
      ConcatOfConcatAll(xss[1..]);
      ConcatAppend(xss[0], ConcatAll(xss[1..]));
      var outer := seq(|xss|, i requires 0 <= i < |xss| => Concat(xss[i]));
      assert outer[1..] == seq(|xss[1..]|, i requires 0 <= i < |xss[1..]| => Concat(xss[1..][i]));
    }
  }

  /** The text is the concatenation of the string leaves, in order. */
  lemma {:induction false} TextIsConcatOfLeaves(n: Node)
    ensures TextOf(n) == Concat(Leaves(n))
    decreases n
  {
    match n
    case Str(text) =>
      assert Concat([text]) == text + Concat([]);
    case Many(items) =>
      var texts := seq(|items|, i requires 0 <= i < |items| => TextOf(items[i]));
      var leaves := seq(|items|, i requires 0 <= i < |items| => Leaves(items[i]));
      forall i | 0 <= i < |items| ensures texts[i] == Concat(leaves[i]) {
        TextIsConcatOfLeaves(items[i]);
      }
      ConcatOfConcatAll(leaves);
      assert texts == seq(|leaves|, i requires 0 <= i < |leaves| => Concat(leaves[i]));
    case Element(children) =>
      TextIsConcatOfLeaves(children);
    case Opaque =>
  }

  /** Splitting a children array splits its text: nesting and grouping do not matter. */
  lemma TextOfManyAppend(a: seq<Node>, b: seq<Node>)
    ensures TextOf(Many(a + b)) == TextOf(Many(a)) + TextOf(Many(b))
  {
    var ta := seq(|a|, i requires 0 <= i < |a| => TextOf(a[i]));
    var tb := seq(|b|, i requires 0 <= i < |b| => TextOf(b[i]));
    var ab := a + b;
    assert seq(|ab|, i requires 0 <= i < |ab| => TextOf(ab[i])) == ta + tb;
    ConcatAppend(ta, tb);
  }
}
