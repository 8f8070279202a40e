/** `HtmlFind`: the single-match extractor.  It walks the token stream once,
    keeping the nesting depth and the depth `tagDepth` at which the capture
    was opened, and concatenates the rendering of every token from the match
    to the end tag that closes it. */
module Find {
  import opened Tokens
  import opened Attrs

  /** The loop's variables: `tagDepth == -1` means "nothing captured yet". */
  datatype FindState = FindState(depth: int, tagDepth: int, out: string, loop: bool)

  const Initial := FindState(0, -1, "", true)

  /** The write at the bottom of the loop body: only while capturing. */
  function Emit(s: FindState, t: Token): FindState
  {
    if s.tagDepth != -1 then s.(out := s.out + t.render) else s
  }

  /** One turn of the loop.  A matching start tag (re)records `tagDepth`,
      even inside a capture; with the nil condition the `continue` skips the
      write, so that start tag is not captured.  A self-closing tag named
      `tag` always hits the `continue` and is neither matched nor written. */
  function FindStep(s: FindState, t: Token, tag: string, cond: AttrCond): FindState
  {
    match t.kind
    case StartTag =>
      var s1 := s.(depth := s.depth + 1);
      if t.name == tag && cond.NoCond? then s1.(tagDepth := s1.depth)
      else if t.name == tag && HtmlCheckAttrs(cond, t.attrs) then Emit(s1.(tagDepth := s1.depth), t)
      else Emit(s1, t)
    case SelfClosingTag =>
      if t.name == tag then s else Emit(s, t)
    case EndTag =>
      var stop := t.name == tag && s.depth == s.tagDepth;
      Emit(s.(loop := s.loop && !stop, depth := s.depth - 1), t)
    case Other =>
      Emit(s, t)
  }

  /** The loop, run until it clears `loop` or the stream ends. */
  function FindRun(ts: seq<Token>, s: FindState, tag: string, cond: AttrCond): FindState
  {
    if !s.loop || |ts| == 0 then s else FindRun(ts[1..], FindStep(s, ts[0], tag, cond), tag, cond)
  }

  /** What `HtmlFind` returns. */
  function Find(ts: seq<Token>, tag: string, cond: AttrCond): string
  {
    FindRun(ts, Initial, tag, cond).out
  }

  /** `HtmlFind(tokenizer, tag, attrCond)`. */
  method HtmlFind(tokens: seq<Token>, tag: string, attrCond: AttrCond) returns (r: string)
    ensures r == Find(tokens, tag, attrCond)
  {
    var depth := 0;
    var tagDepth := -1;
    var ret := "";
    var loop := true;
    var i := 0;
    while loop && i < |tokens|
      invariant 0 <= i <= |tokens|
      invariant FindRun(tokens[i..], FindState(depth, tagDepth, ret, loop), tag, attrCond)
                == FindRun(tokens, Initial, tag, attrCond)
      decreases |tokens| - i
    {
      assert tokens[i..][1..] == tokens[i + 1..];
      var token := tokens[i];
      i := i + 1;
      match token.kind {
        case StartTag =>
          depth := depth + 1;
          if token.name == tag {
            if attrCond.NoCond? {
              tagDepth := depth;
              continue;
            }
            if HtmlCheckAttrs(attrCond, token.attrs) {
              tagDepth := depth;
            }
          }
        case SelfClosingTag =>
          if token.name == tag {
            continue;
          }
        case EndTag =>
          if token.name == tag && depth == tagDepth {
            loop := false;
          }
          depth := depth - 1;
        case Other =>
      }
      if tagDepth != -1 {
        ret := ret + token.render;
      }
    }
    r := ret;
  }

  /** `HtmlFindByAttr(tokenizer, tag, key, value)`: the first `tag` whose
      attribute `key` holds `value` as a space-separated piece. */
  method HtmlFindByAttr(tokens: seq<Token>, tag: string, key: string, value: string) returns (r: string)
    ensures r == Find(tokens, tag, Cond(HtmlKeyInAttr(key, value)))
  {
    r := HtmlFind(tokens, tag, Cond(HtmlKeyInAttr(key, value)));
  }

  // -----------------------------------------------------------------------
  // Properties of the extractor.

  /** The rendering of `ts` without the self-closing tags named `tag`, which
      `HtmlFind` never writes. */
  function KeptRender(ts: seq<Token>, tag: string): string
  {
    if |ts| == 0 then "" else Kept(ts[0], tag) + KeptRender(ts[1..], tag)
  }

  /** What a token inside a capture contributes. */
  function Kept(t: Token, tag: string): string
  {
    if t.kind == SelfClosingTag && t.name == tag then "" else t.render
  }

  /** What the matched opening tag contributes: nothing under the nil
      condition. */
  function Opening(t: Token, cond: AttrCond): string
  {
    if cond.NoCond? then "" else t.render
  }

  /** No start tag in `ts` is a match. */
  predicate NoMatchIn(ts: seq<Token>, tag: string, cond: AttrCond)
  {
    |ts| == 0 || (!OpensMatch(ts[0], tag, cond) && NoMatchIn(ts[1..], tag, cond))
  }

  /** Before any match nothing is written, whatever else happens. */
  lemma {:induction false} IdleRun(ts: seq<Token>, s: FindState, tag: string, cond: AttrCond)
    requires s.tagDepth == -1
    requires NoMatchIn(ts, tag, cond)
    ensures FindRun(ts, s, tag, cond).out == s.out
  {
    if s.loop && |ts| > 0 {
      assert !OpensMatch(ts[0], tag, cond);
      IdleRun(ts[1..], FindStep(s, ts[0], tag, cond), tag, cond);
    }
  }

  /** Without a matching start tag the result is empty. */
  lemma NoMatchIsEmpty(ts: seq<Token>, tag: string, cond: AttrCond)
    requires NoMatchIn(ts, tag, cond)
    ensures Find(ts, tag, cond) == ""
  {
    IdleRun(ts, Initial, tag, cond);
  }

  /** Searching through tokens that hold no match and never close below the
      starting depth just moves the depth. */
  lemma {:induction false} SeekRun(pre: seq<Token>, rest: seq<Token>, s: FindState, tag: string, cond: AttrCond)
    requires s.loop && s.tagDepth == -1
    requires StaysAbove(pre, s.depth)
    requires NoMatchIn(pre, tag, cond)
    ensures FindRun(pre + rest, s, tag, cond) == FindRun(rest, s.(depth := s.depth + Depth(pre)), tag, cond)
  {
    if |pre| == 0 {
      assert pre + rest == rest;
    } else {
      assert !OpensMatch(pre[0], tag, cond);
      assert (pre + rest)[1..] == pre[1..] + rest;
      SeekRun(pre[1..], rest, FindStep(s, pre[0], tag, cond), tag, cond);
    }
  }

  /** Inside a capture, tokens that hold no new match and never close below
      the capture's own depth are all written (except self-closing tags named
      `tag`), and the capture stays open. */
  lemma {:induction false} CaptureRun(xs: seq<Token>, rest: seq<Token>, s: FindState, tag: string, cond: AttrCond)
    requires s.loop && s.tagDepth != -1
    requires StaysAbove(xs, s.depth - s.tagDepth)
    requires NoMatchIn(xs, tag, cond)
    ensures FindRun(xs + rest, s, tag, cond)
            == FindRun(rest, s.(depth := s.depth + Depth(xs), out := s.out + KeptRender(xs, tag)), tag, cond)
  {
    if |xs| == 0 {
      assert xs + rest == rest;
      assert s.(depth := s.depth + 0, out := s.out + "") == s;
    } else {
      assert (xs + rest)[1..] == xs[1..] + rest;
      var s1 := FindStep(s, xs[0], tag, cond);
      CaptureStep(s, xs[0], tag, cond);
      CaptureRun(xs[1..], rest, s1, tag, cond);
      assert s1.(depth := s1.depth + Depth(xs[1..]), out := s1.out + KeptRender(xs[1..], tag))
          == s.(depth := s.depth + Depth(xs), out := s.out + KeptRender(xs, tag));
    }
  }

  /** One turn inside a capture, on a token that is not a new match and does
      not close the capture. */
  lemma CaptureStep(s: FindState, t: Token, tag: string, cond: AttrCond)
    requires s.loop && s.tagDepth != -1
    requires !OpensMatch(t, tag, cond)
    requires s.depth - s.tagDepth + Delta(t) >= 0
    ensures FindStep(s, t, tag, cond) == s.(depth := s.depth + Delta(t), out := s.out + Kept(t, tag))
  {
  }

  /** From a capture opened at the current depth: a well-nested body
      without a new match, then an end tag named `tag`, ends the search
      with the body (less self-closing tags named `tag`) and that end tag
      written. */
  lemma CloseRun(body: seq<Token>, close: Token, post: seq<Token>, s: FindState, tag: string, cond: AttrCond)
    requires s.loop && s.tagDepth != -1 && s.depth == s.tagDepth
    requires Balanced(body) && NoMatchIn(body, tag, cond)
    requires close.kind == EndTag && close.name == tag
    ensures FindRun(body + [close] + post, s, tag, cond).out == s.out + KeptRender(body, tag) + close.render
  {
    assert body + [close] + post == body + ([close] + post);
    CaptureRun(body, [close] + post, s, tag, cond);
    var s2 := s.(out := s.out + KeptRender(body, tag));
    assert ([close] + post)[1..] == post;
    var s3 := FindStep(s2, close, tag, cond);
    assert !s3.loop && s3.out == s2.out + close.render;
  }

  /** From the start of the stream: a stretch without a match that never
      closes below depth zero, then a matching start tag, opens the capture
      with only that tag (or nothing) written. */
  lemma OpenRun(pre: seq<Token>, open: Token, rest: seq<Token>, tag: string, cond: AttrCond)
    requires StaysAbove(pre, 0) && NoMatchIn(pre, tag, cond)
    requires OpensMatch(open, tag, cond)
    ensures Depth(pre) >= 0
    ensures FindRun(pre + [open] + rest, Initial, tag, cond)
            == FindRun(rest, FindState(Depth(pre) + 1, Depth(pre) + 1, Opening(open, cond), true), tag, cond)
  {
    assert pre + [open] + rest == pre + ([open] + rest);
    SeekRun(pre, [open] + rest, Initial, tag, cond);
    StaysAboveDepth(pre, 0);
    var s1 := FindStep(Initial.(depth := Depth(pre)), open, tag, cond);
    assert s1 == FindState(Depth(pre) + 1, Depth(pre) + 1, Opening(open, cond), true);
    assert ([open] + rest)[1..] == rest;
  }

  /** One matching element, after a stretch without a match: the result is
      its rendering from the opening tag (left out under the nil condition)
      through its own end tag.  Nested elements named `tag` that fail the
      condition do not end it, self-closing tags named `tag` are dropped,
      and nothing after the end tag is read. */
  lemma FindElement(pre: seq<Token>, open: Token, body: seq<Token>, close: Token, post: seq<Token>,
                    tag: string, cond: AttrCond)
    requires StaysAbove(pre, 0) && NoMatchIn(pre, tag, cond)
    requires OpensMatch(open, tag, cond)
    requires Balanced(body) && NoMatchIn(body, tag, cond)
    requires close.kind == EndTag && close.name == tag
    ensures Find(pre + [open] + body + [close] + post, tag, cond)
            == Opening(open, cond) + KeptRender(body, tag) + close.render
  {
    var rest := body + [close] + post;
    assert pre + [open] + body + [close] + post == pre + [open] + rest;
    OpenRun(pre, open, rest, tag, cond);
    CloseRun(body, close, post, FindState(Depth(pre) + 1, Depth(pre) + 1, Opening(open, cond), true), tag, cond);
  }

  /** A run that starts `r` levels above a reference depth and never goes
      below it ends at or above it. */
  lemma {:induction false} StaysAboveDepth(ts: seq<Token>, r: int)
    requires StaysAbove(ts, r)
    ensures r + Depth(ts) >= 0
  {
    if |ts| > 0 {
      StaysAboveDepth(ts[1..], r + Delta(ts[0]));
    }
  }

  /** Inside a capture opened at the current depth, a stretch without a
      match followed by a matching start tag re-records `tagDepth` at that
      inner tag's depth. */
  lemma ReopenRun(mid: seq<Token>, inner: Token, tail: seq<Token>, s: FindState, tag: string, cond: AttrCond)
    requires s.loop && s.depth >= 0 && s.depth == s.tagDepth
    requires StaysAbove(mid, 0) && NoMatchIn(mid, tag, cond)
    requires OpensMatch(inner, tag, cond)
    ensures Depth(mid) >= 0
    ensures FindRun(mid + ([inner] + tail), s, tag, cond)
            == FindRun(tail, FindState(s.depth + Depth(mid) + 1, s.depth + Depth(mid) + 1,
                                       s.out + KeptRender(mid, tag) + Opening(inner, cond), true), tag, cond)
  {
    CaptureRun(mid, [inner] + tail, s, tag, cond);
    StaysAboveDepth(mid, 0);
    ReopenTail(mid, inner, tail, s, tag, cond);
  }

  /** The last step of `ReopenRun`, at the inner matching tag. */
  lemma ReopenTail(mid: seq<Token>, inner: Token, tail: seq<Token>, s: FindState, tag: string, cond: AttrCond)
    requires s.loop && s.depth >= 0 && Depth(mid) >= 0
    requires OpensMatch(inner, tag, cond)
    ensures FindRun([inner] + tail, s.(depth := s.depth + Depth(mid), out := s.out + KeptRender(mid, tag)), tag, cond)
            == FindRun(tail, FindState(s.depth + Depth(mid) + 1, s.depth + Depth(mid) + 1,
                                       s.out + KeptRender(mid, tag) + Opening(inner, cond), true), tag, cond)
  {
    MatchRun(inner, tail, s.(depth := s.depth + Depth(mid), out := s.out + KeptRender(mid, tag)), tag, cond);
  }

  /** A matching start tag, met while the loop runs, opens a capture at its
      own depth. */
  lemma MatchRun(t: Token, ts: seq<Token>, s: FindState, tag: string, cond: AttrCond)
    requires s.loop && s.depth >= -1
    requires OpensMatch(t, tag, cond)
    ensures FindRun([t] + ts, s, tag, cond)
            == FindRun(ts, FindState(s.depth + 1, s.depth + 1, s.out + Opening(t, cond), true), tag, cond)
  {
    MatchStep(s, t, tag, cond);
    RunCons(t, ts, s, tag, cond);
  }

  /** One turn of the loop, while it runs. */
  lemma RunCons(t: Token, ts: seq<Token>, s: FindState, tag: string, cond: AttrCond)
    requires s.loop
    ensures FindRun([t] + ts, s, tag, cond) == FindRun(ts, FindStep(s, t, tag, cond), tag, cond)
  {
    assert ([t] + ts)[1..] == ts;
  }

  /** A matching start tag records its own depth as `tagDepth`. */
  lemma MatchStep(s: FindState, t: Token, tag: string, cond: AttrCond)
    requires OpensMatch(t, tag, cond) && s.depth >= -1
    ensures FindStep(s, t, tag, cond)
            == FindState(s.depth + 1, s.depth + 1, s.out + Opening(t, cond), s.loop)
  {
  }

  /** A matching start tag inside an open capture overwrites `tagDepth`: the
      capture then ends at that inner element's end tag, while the outer
      element is still open. */
  lemma NestedMatchOverwrites(pre: seq<Token>, open: Token, mid: seq<Token>, inner: Token,
                              body: seq<Token>, close: Token, post: seq<Token>,
                              tag: string, cond: AttrCond)
    requires StaysAbove(pre, 0) && NoMatchIn(pre, tag, cond)
    requires OpensMatch(open, tag, cond)
    requires StaysAbove(mid, 0) && NoMatchIn(mid, tag, cond)
    requires OpensMatch(inner, tag, cond)
    requires Balanced(body) && NoMatchIn(body, tag, cond)
    requires close.kind == EndTag && close.name == tag
    ensures Find(pre + [open] + mid + [inner] + body + [close] + post, tag, cond)
            == Opening(open, cond) + KeptRender(mid, tag) + Opening(inner, cond)
               + KeptRender(body, tag) + close.render
  {
    var tail := body + [close] + post;
    Regroup(pre, open, mid, inner, body, close, post);
    OpenRun(pre, open, mid + ([inner] + tail), tag, cond);
    var s1 := FindState(Depth(pre) + 1, Depth(pre) + 1, Opening(open, cond), true);
    ReopenRun(mid, inner, tail, s1, tag, cond);
    var d := s1.depth + Depth(mid) + 1;
    CloseRun(body, close, post, FindState(d, d, s1.out + KeptRender(mid, tag) + Opening(inner, cond), true), tag, cond);
  }

  lemma Regroup(pre: seq<Token>, open: Token, mid: seq<Token>, inner: Token,
                body: seq<Token>, close: Token, post: seq<Token>)
    ensures pre + [open] + mid + [inner] + body + [close] + post
            == pre + [open] + (mid + ([inner] + (body + [close] + post)))
  {
  }

  /** The "not matched" sentinel -1 is a depth the counter can reach: two
      stray end tags named `tag` at the start of the stream stop the search
      before any match, and the result is empty. */
  lemma StrayEndTagsStopSearch(c1: Token, c2: Token, rest: seq<Token>, tag: string, cond: AttrCond)
    requires c1.kind == EndTag && c1.name == tag
    requires c2.kind == EndTag && c2.name == tag
    ensures Find([c1, c2] + rest, tag, cond) == ""
  {
    var ts := [c1, c2] + rest;
    var s1 := FindStep(Initial, c1, tag, cond);
    assert s1 == FindState(-1, -1, "", true);
    var s2 := FindStep(s1, c2, tag, cond);
    assert !s2.loop && s2.out == "";
    assert ts[0] == c1 && ts[1..][0] == c2;
    assert FindRun(ts, Initial, tag, cond) == FindRun(ts[1..], s1, tag, cond);
    assert FindRun(ts[1..], s1, tag, cond) == FindRun(ts[1..][1..], s2, tag, cond);
  }
}
