/** The tokens that the HTML tokenizer hands to the extractors.  The
    tokenizer itself is not modelled: a stream is a finite sequence of
    tokens, and its end stands for the tokenizer's `io.EOF` error token
    (which renders as the empty string). */
module Tokens {

  datatype Kind = StartTag | EndTag | SelfClosingTag | Other

  datatype Attribute = Attribute(key: string, val: string)

  /** `name` is the tag name (Go's `Token.Data`) and is consulted only for the
      three tag kinds; `render` stands for `Token.String()`. */
  datatype Token = Token(kind: Kind, name: string, attrs: seq<Attribute>, render: string)

  /** An attribute condition: `NoCond` is Go's nil function. */
  datatype AttrCond = NoCond | Cond(f: (string, string) -> bool)

  /** The outcome of an extraction that may index out of range and panic. */
  datatype Result<T> = Ok(value: T) | IndexOutOfRange

  /** Concatenated renderings, in stream order. */
  function RenderAll(ts: seq<Token>): string
  {
    if |ts| == 0 then "" else ts[0].render + RenderAll(ts[1..])
  }

  lemma {:induction false} RenderAllAppend(a: seq<Token>, b: seq<Token>)
    ensures RenderAll(a + b) == RenderAll(a) + RenderAll(b)
  {
    if |a| > 0 {
      assert (a + b)[1..] == a[1..] + b;
      RenderAllAppend(a[1..], b);
    } else {
      assert a + b == b;
    }
  }

  /** How a token moves the nesting depth. */
  function Delta(t: Token): int
  {
    match t.kind
    case StartTag => 1
    case EndTag => -1
    case _ => 0
  }

  /** Net depth change over a run of tokens. */
  function Depth(ts: seq<Token>): int
  {
    if |ts| == 0 then 0 else Delta(ts[0]) + Depth(ts[1..])
  }

  lemma {:induction false} DepthAppend(a: seq<Token>, b: seq<Token>)
    ensures Depth(a + b) == Depth(a) + Depth(b)
  {
    if |a| > 0 {
      assert (a + b)[1..] == a[1..] + b;
      DepthAppend(a[1..], b);
    } else {
      assert a + b == b;
    }
  }

  /** Starting `r` levels above some reference depth, no prefix of `ts`
      goes below it. */
  predicate StaysAbove(ts: seq<Token>, r: int)
  {
    r >= 0 && (|ts| == 0 || StaysAbove(ts[1..], r + Delta(ts[0])))
  }

  /** Well nested: never closes more than it opened, and ends level. */
  predicate Balanced(ts: seq<Token>)
  {
    StaysAbove(ts, 0) && Depth(ts) == 0
  }

  /** The last element of a non-empty sequence. */
  function Last<T>(s: seq<T>): T
    requires |s| > 0
  {
    s[|s| - 1]
  }
}
