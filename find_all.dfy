/** `HtmlFindAll`: every element named `tag` that satisfies the condition.
    Open matches form a stack of frames, kept as the parallel sequences
    `tagDepth` (the depth the match was opened at) and `h` (what has been
    captured for it); every token is written to every open frame, and the
    top frame is flushed into the result when its end tag comes. */
module FindAll {
  import opened Tokens
  import opened Attrs

  /** The loop's variables; the top frame is at index `n == |tagDepth| - 1`. */
  datatype AllState = AllState(depth: int, tagDepth: seq<int>, h: seq<string>, ret: seq<string>)

  const Start := AllState(0, [], [], [])

  /** `tagDepth` and `h` have one entry per open frame. */
  predicate Parallel(s: AllState)
  {
    |s.tagDepth| == |s.h|
  }

  /** Every buffer with `str` written to it. */
  function AppendEach(h: seq<string>, str: string): seq<string>
  {
    seq(|h|, i requires 0 <= i < |h| => h[i] + str)
  }

  /** Writing nothing leaves every buffer as it is. */
  lemma AppendEachNothing(h: seq<string>)
    ensures AppendEach(h, "") == h
  {
    var l := AppendEach(h, "");
    assert forall i :: 0 <= i < |h| ==> l[i] == h[i];
  }

  /** Writing `a` and then `b` to every buffer is writing `a + b`. */
  lemma AppendEachTwice(h: seq<string>, a: string, b: string)
    ensures AppendEach(AppendEach(h, a), b) == AppendEach(h, a + b)
  {
    var l := AppendEach(AppendEach(h, a), b);
    var r := AppendEach(h, a + b);
    assert forall i :: 0 <= i < |h| ==> l[i] == r[i];
  }

  /** The `switch` of one turn: the state it leaves and whether it set
      `push`.  An end tag named `tag` reads `tagDepth[n]`, which panics when
      no frame is open. */
  function Dispatch(s: AllState, t: Token, tag: string, cond: AttrCond): Result<(AllState, bool)>
  {
    if SelfMatch(t, tag, cond) then
      Ok((s.(tagDepth := s.tagDepth + [1], h := s.h + [""]), true))
    else if t.kind == StartTag then
      var d := s.depth + 1;
      if t.name == tag && HtmlCheckAttrs(cond, t.attrs) then
        Ok((s.(depth := d, tagDepth := s.tagDepth + [d], h := s.h + [""]), false))
      else
        Ok((s.(depth := d), false))
    else if t.kind == EndTag then
      if t.name == tag && |s.tagDepth| == 0 then IndexOutOfRange
      else Ok((s.(depth := s.depth - 1), t.name == tag && s.depth == Last(s.tagDepth)))
    else
      Ok((s, false))
  }

  /** Pops the top frame, appending its buffer to the result. */
  function Flush(s: AllState): (r: AllState)
    requires Parallel(s) && |s.h| > 0
    ensures Parallel(r) && |r.h| == |s.h| - 1
  {
    var n := |s.h| - 1;
    s.(tagDepth := s.tagDepth[..n], h := s.h[..n], ret := s.ret + [s.h[n]])
  }

  /** The bottom of the loop body: write the token to every buffer, then
      flush when `push` is set. */
  function Finish(s: AllState, push: bool, t: Token): (r: AllState)
    requires Parallel(s) && (push ==> |s.h| > 0)
    ensures Parallel(r)
  {
    var s1 := s.(h := AppendEach(s.h, t.render));
    if push then Flush(s1) else s1
  }

  /** One turn of the loop. */
  function AllStep(s: AllState, t: Token, tag: string, cond: AttrCond): (r: Result<AllState>)
    requires Parallel(s)
    ensures r.Ok? ==> Parallel(r.value)
  {
    match Dispatch(s, t, tag, cond)
    case IndexOutOfRange => IndexOutOfRange
    case Ok((s1, push)) => Ok(Finish(s1, push, t))
  }

  /** The loop over the whole stream; a panic ends it. */
  function FindAllRun(ts: seq<Token>, s: AllState, tag: string, cond: AttrCond): (r: Result<AllState>)
    requires Parallel(s)
    ensures r.Ok? ==> Parallel(r.value)
  {
    if |ts| == 0 then Ok(s)
    else match AllStep(s, ts[0], tag, cond)
      case IndexOutOfRange => IndexOutOfRange
      case Ok(s1) => FindAllRun(ts[1..], s1, tag, cond)
  }

  /** What `HtmlFindAll` returns, or the panic. */
  function FindAll(ts: seq<Token>, tag: string, cond: AttrCond): Result<seq<string>>
  {
    match FindAllRun(ts, Start, tag, cond)
    case IndexOutOfRange => IndexOutOfRange
    case Ok(s) => Ok(s.ret)
  }

  /** One turn at position `i` of the stream. */
  lemma RunAt(tokens: seq<Token>, i: nat, s: AllState, r: Result<AllState>, tag: string, cond: AttrCond)
    requires i < |tokens| && Parallel(s) && AllStep(s, tokens[i], tag, cond) == r
    ensures r.IndexOutOfRange? ==> FindAllRun(tokens[i..], s, tag, cond) == IndexOutOfRange
    ensures r.Ok? ==> FindAllRun(tokens[i..], s, tag, cond) == FindAllRun(tokens[i + 1..], r.value, tag, cond)
  {
    assert tokens[i..][0] == tokens[i] && tokens[i..][1..] == tokens[i + 1..];
  }

  /** The inner loop: `str` is appended to every buffer. */
  method WriteAll(h0: seq<string>, str: string) returns (h: seq<string>)
    ensures h == AppendEach(h0, str)
  {
    h := h0;
    var j := 0;
    while j < |h|
      invariant 0 <= j <= |h| == |h0|
      invariant forall k :: 0 <= k < j ==> h[k] == h0[k] + str
      invariant forall k :: j <= k < |h| ==> h[k] == h0[k]
    {
      h := h[j := h[j] + str];
      j := j + 1;
    }
  }

  /** The `switch` of one turn, on the loop's variables.  `ok` is false
      when the end-tag arm indexes `tagDepth[-1]` and panics. */
  method DispatchToken(token: Token, tag: string, attrCond: AttrCond, depth0: int, tagDepth0: seq<int>,
                       h0: seq<string>, n0: int, ghost ret: seq<string>)
    returns (ok: bool, depth: int, tagDepth: seq<int>, h: seq<string>, n: int, push: bool)
    requires |h0| == |tagDepth0| && n0 == |tagDepth0| - 1
    ensures ok ==> |h| == |tagDepth| && n == |tagDepth| - 1
    ensures var s := AllState(depth0, tagDepth0, h0, ret);
            if ok then Dispatch(s, token, tag, attrCond) == Ok((AllState(depth, tagDepth, h, ret), push))
            else Dispatch(s, token, tag, attrCond) == IndexOutOfRange
  {
    ok, depth, tagDepth, h, n, push := true, depth0, tagDepth0, h0, n0, false;
    if token.kind == SelfClosingTag && token.name == tag && HtmlCheckAttrs(attrCond, token.attrs) {
      n := n + 1;
      tagDepth := tagDepth + [1];
      h := h + [""];
      push := true;
    } else if token.kind == StartTag {
      depth := depth + 1;
      if token.name == tag && HtmlCheckAttrs(attrCond, token.attrs) {
        n := n + 1;
        tagDepth := tagDepth + [depth];
        h := h + [""];
      }
    } else if token.kind == EndTag {
      if token.name == tag {
        if n < 0 {
          // `tagDepth[n]` with `n == -1`: the Go slice index panics.
          return false, depth, tagDepth, h, n, push;
        }
        if depth == tagDepth[n] {
          push := true;
        }
      }
      depth := depth - 1;
    }
  }

  /** `HtmlFindAll(tokenizer, tag, attrCond)`.  The loop keeps `n`, the
      index of the top frame, beside the stack, as the source does. */
  method HtmlFindAll(tokens: seq<Token>, tag: string, attrCond: AttrCond) returns (r: Result<seq<string>>)
    ensures r == FindAll(tokens, tag, attrCond)
  {
    var depth := 0;
    var tagDepth: seq<int> := [];
    var h: seq<string> := [];
    var ret: seq<string> := [];
    var push := false;
    var n := -1;
    var i := 0;
    while i < |tokens|
      invariant 0 <= i <= |tokens|
      invariant n == |tagDepth| - 1 && |h| == |tagDepth|
      invariant FindAllRun(tokens[i..], AllState(depth, tagDepth, h, ret), tag, attrCond)
                == FindAllRun(tokens, Start, tag, attrCond)
    {
      ghost var s := AllState(depth, tagDepth, h, ret);
      var token := tokens[i];
      var ok;
      ok, depth, tagDepth, h, n, push := DispatchToken(token, tag, attrCond, depth, tagDepth, h, n, ret);
      RunAt(tokens, i, s, AllStep(s, token, tag, attrCond), tag, attrCond);
      if !ok {
        return IndexOutOfRange;
      }
      ghost var s1 := AllState(depth, tagDepth, h, ret);

      h := WriteAll(h, token.render);

      ghost var pushed := push;
      if push {
        ret := ret + [h[n]];
        tagDepth := tagDepth[..n];
        h := h[..n];
        n := n - 1;
        push := false;
      }
      assert AllState(depth, tagDepth, h, ret) == Finish(s1, pushed, token);
      i := i + 1;
    }
    assert tokens[i..] == [];
    r := Ok(ret);
  }

  // -----------------------------------------------------------------------
  // Properties of the extractor.  Each stretch of a stream is described by
  // the state it leads to; `RunSeq` joins stretches.

  /** No token of `ts` opens a frame: no matching start or self-closing tag. */
  predicate Quiet(ts: seq<Token>, tag: string, cond: AttrCond)
  {
    |ts| == 0
    || (!OpensMatch(ts[0], tag, cond) && !SelfMatch(ts[0], tag, cond) && Quiet(ts[1..], tag, cond))
  }

  /** Tokens that are safe while no frame is open: no frame is opened and
      there is no end tag named `tag` (which would panic). */
  predicate Idle(ts: seq<Token>, tag: string, cond: AttrCond)
  {
    |ts| == 0
    || (!OpensMatch(ts[0], tag, cond) && !SelfMatch(ts[0], tag, cond)
        && !(ts[0].kind == EndTag && ts[0].name == tag) && Idle(ts[1..], tag, cond))
  }

  /** The result of two stretches run from the start. */
  lemma RunFrom(a: seq<Token>, b: seq<Token>, s1: AllState, s2: AllState, tag: string, cond: AttrCond)
    requires Parallel(s1)
    requires FindAllRun(a, Start, tag, cond) == Ok(s1) && FindAllRun(b, s1, tag, cond) == Ok(s2)
    ensures FindAll(a + b, tag, cond) == Ok(s2.ret)
  {
    RunSeq(a, b, Start, s1, s2, tag, cond);
  }

  /** Running `a` and then `b` is running `a + b`. */
  lemma {:induction false} RunSeq(a: seq<Token>, b: seq<Token>, s0: AllState, s1: AllState, s2: AllState,
                                  tag: string, cond: AttrCond)
    requires Parallel(s0) && Parallel(s1)
    requires FindAllRun(a, s0, tag, cond) == Ok(s1) && FindAllRun(b, s1, tag, cond) == Ok(s2)
    ensures FindAllRun(a + b, s0, tag, cond) == Ok(s2)
  {
    if |a| == 0 {
      assert a + b == b;
    } else {
      var t := a[0];
      var m := AllStep(s0, t, tag, cond).value;
      assert (a + b)[0] == t && (a + b)[1..] == a[1..] + b;
      RunSeq(a[1..], b, m, s1, s2, tag, cond);
    }
  }

  /** A panic in `a` is a panic in `a + b`. */
  lemma {:induction false} FailSeq(a: seq<Token>, b: seq<Token>, s0: AllState, tag: string, cond: AttrCond)
    requires Parallel(s0) && FindAllRun(a, s0, tag, cond) == IndexOutOfRange
    ensures FindAllRun(a + b, s0, tag, cond) == IndexOutOfRange
  {
    var t := a[0];
    assert (a + b)[0] == t && (a + b)[1..] == a[1..] + b;
    if AllStep(s0, t, tag, cond).Ok? {
      FailSeq(a[1..], b, AllStep(s0, t, tag, cond).value, tag, cond);
    }
  }

  /** A single turn as a stretch. */
  lemma Single(t: Token, s: AllState, s1: AllState, tag: string, cond: AttrCond)
    requires Parallel(s) && AllStep(s, t, tag, cond) == Ok(s1)
    ensures FindAllRun([t], s, tag, cond) == Ok(s1)
  {
    assert [t][1..] == [];
  }

  /** While no frame is open, idle tokens move only the depth. */
  lemma {:induction false} PassIdle(xs: seq<Token>, s: AllState, tag: string, cond: AttrCond)
    requires Parallel(s) && |s.h| == 0
    requires Idle(xs, tag, cond)
    ensures FindAllRun(xs, s, tag, cond) == Ok(s.(depth := s.depth + Depth(xs)))
  {
    if |xs| == 0 {
      assert s.(depth := s.depth + 0) == s;
    } else {
      var t := xs[0];
      var s1 := s.(depth := s.depth + Delta(t));
      assert AppendEach(s.h, t.render) == [];
      assert Dispatch(s, t, tag, cond) == Ok((s1, false));
      assert AllStep(s, t, tag, cond) == Ok(s1);
      PassIdle(xs[1..], s1, tag, cond);
      assert s1.(depth := s1.depth + Depth(xs[1..])) == s.(depth := s.depth + Depth(xs));
    }
  }

  /** The state after writing `xs` to every open frame. */
  function Passed(s: AllState, xs: seq<Token>): AllState
  {
    s.(depth := s.depth + Depth(xs), h := AppendEach(s.h, RenderAll(xs)))
  }

  lemma SingleToken(t: Token)
    ensures RenderAll([t]) == t.render && Depth([t]) == Delta(t)
  {
    assert [t][1..] == [];
    assert RenderAll([t]) == t.render + "";
  }

  lemma PassedCons(s: AllState, t: Token, xs: seq<Token>)
    requires |xs| > 0 && xs[0] == t
    ensures Passed(Passed(s, [t]), xs[1..]) == Passed(s, xs)
  {
    AppendEachTwice(s.h, t.render, RenderAll(xs[1..]));
    SingleToken(t);
    assert RenderAll(xs) == t.render + RenderAll(xs[1..]);
    assert Depth(xs) == Delta(t) + Depth(xs[1..]);
  }

  /** A token that opens no frame and, if it is an end tag, is not at the
      top frame's depth: it moves the depth and is written everywhere. */
  lemma QuietStep(s: AllState, t: Token, tag: string, cond: AttrCond)
    requires Parallel(s) && |s.h| > 0
    requires !OpensMatch(t, tag, cond) && !SelfMatch(t, tag, cond)
    requires t.kind == EndTag ==> s.depth != Last(s.tagDepth)
    ensures AllStep(s, t, tag, cond) == Ok(Passed(s, [t]))
  {
    assert Dispatch(s, t, tag, cond) == Ok((s.(depth := s.depth + Delta(t)), false));
    SingleToken(t);
  }

  /** While a frame is open, quiet tokens that never close below its depth
      are written to every open buffer and pop nothing. */
  lemma {:induction false} PassOpen(xs: seq<Token>, s: AllState, tag: string, cond: AttrCond)
    requires Parallel(s) && |s.h| > 0
    requires StaysAbove(xs, s.depth - Last(s.tagDepth))
    requires Quiet(xs, tag, cond)
    ensures FindAllRun(xs, s, tag, cond) == Ok(Passed(s, xs))
  {
    if |xs| == 0 {
      AppendEachNothing(s.h);
      assert Passed(s, xs) == s;
    } else {
      var t := xs[0];
      assert StaysAbove(xs[1..], s.depth - Last(s.tagDepth) + Delta(t));
      var s1 := Passed(s, [t]);
      QuietStep(s, t, tag, cond);
      PassOpen(xs[1..], s1, tag, cond);
      PassedCons(s, t, xs);
    }
  }

  /** Pushing a buffer and then writing to all buffers. */
  lemma AppendEachPush(h: seq<string>, x: string, str: string)
    ensures AppendEach(h + [x], str) == AppendEach(h, str) + [x + str]
  {
    var l := AppendEach(h + [x], str);
    var r := AppendEach(h, str) + [x + str];
    assert |l| == |r|;
    assert forall i :: 0 <= i < |l| ==> l[i] == r[i];
  }

  /** Writing to no buffer, and to a single buffer. */
  lemma AppendEachSingle(x: string, str: string)
    ensures AppendEach([], str) == [] && AppendEach([x], str) == [x + str]
  {
    AppendEachPush([], x, str);
    assert [] + [x] == [x];
  }

  /** Writing to all buffers but the top one. */
  lemma AppendEachPrefix(h: seq<string>, n: nat, str: string)
    requires n <= |h|
    ensures AppendEach(h, str)[..n] == AppendEach(h[..n], str)
  {
  }

  /** A matching start tag pushes a frame at its own depth, holding its own
      rendering. */
  lemma OpenStep(s: AllState, t: Token, tag: string, cond: AttrCond)
    requires Parallel(s) && OpensMatch(t, tag, cond)
    ensures AllStep(s, t, tag, cond)
            == Ok(AllState(s.depth + 1, s.tagDepth + [s.depth + 1], AppendEach(s.h, t.render) + [t.render], s.ret))
  {
    var d := s.depth + 1;
    assert Dispatch(s, t, tag, cond) == Ok((s.(depth := d, tagDepth := s.tagDepth + [d], h := s.h + [""]), false));
    AppendEachPush(s.h, "", t.render);
    assert "" + t.render == t.render;
  }

  /** An end tag named `tag` at the top frame's depth pops that frame, with
      the end tag written to it, into the result. */
  lemma CloseStep(s: AllState, t: Token, tag: string, cond: AttrCond)
    requires Parallel(s) && |s.h| > 0
    requires t.kind == EndTag && t.name == tag && s.depth == Last(s.tagDepth)
    ensures AllStep(s, t, tag, cond)
            == Ok(AllState(s.depth - 1, s.tagDepth[..|s.h| - 1], AppendEach(s.h[..|s.h| - 1], t.render),
                           s.ret + [Last(s.h) + t.render]))
  {
    var n := |s.h| - 1;
    assert Dispatch(s, t, tag, cond) == Ok((s.(depth := s.depth - 1), true));
    AppendEachPrefix(s.h, n, t.render);
  }

  /** A matching self-closing tag yields a fragment of exactly its own
      rendering, which is also written to every enclosing frame. */
  lemma SelfClosingFragment(t: Token, s: AllState, tag: string, cond: AttrCond)
    requires Parallel(s)
    requires SelfMatch(t, tag, cond)
    ensures FindAllRun([t], s, tag, cond) == Ok(s.(h := AppendEach(s.h, t.render), ret := s.ret + [t.render]))
  {
    var s0 := s.(tagDepth := s.tagDepth + [1], h := s.h + [""]);
    assert Dispatch(s, t, tag, cond) == Ok((s0, true));
    AppendEachPush(s.h, "", t.render);
    assert "" + t.render == t.render;
    assert (s.tagDepth + [1])[..|s.tagDepth|] == s.tagDepth;
    assert (AppendEach(s.h, t.render) + [t.render])[..|s.h|] == AppendEach(s.h, t.render);
    var s1 := s.(h := AppendEach(s.h, t.render), ret := s.ret + [t.render]);
    assert AllStep(s, t, tag, cond) == Ok(s1);
    Single(t, s, s1, tag, cond);
  }

  /** The rendering of one matched element, from its start tag through its
      end tag. */
  function Fragment(open: Token, body: seq<Token>, close: Token): string
  {
    open.render + RenderAll(body) + close.render
  }

  /** `s` with a frame pushed at depth `s.depth + 1` whose buffer holds `a`,
      `a` also written to the frames below. */
  function Pushed(s: AllState, a: string): AllState
  {
    var d := s.depth + 1;
    AllState(d, s.tagDepth + [d], AppendEach(s.h, a) + [a], s.ret)
  }

  /** `s` with a completed fragment `f` written to its frames and added to
      the result. */
  function Yielded(s: AllState, f: string): AllState
  {
    s.(h := AppendEach(s.h, f), ret := s.ret + [f])
  }

  /** Writing a body that ends level to a pushed frame. */
  lemma PassedFrame(s: AllState, a: string, body: seq<Token>)
    requires Depth(body) == 0
    ensures Passed(Pushed(s, a), body) == Pushed(s, a + RenderAll(body))
  {
    AppendEachPush(AppendEach(s.h, a), a, RenderAll(body));
    AppendEachTwice(s.h, a, RenderAll(body));
  }

  /** The end tag that pops a pushed frame completes its fragment. */
  lemma ElementClose(s: AllState, a: string, close: Token, tag: string, cond: AttrCond)
    requires Parallel(s)
    requires close.kind == EndTag && close.name == tag
    ensures FindAllRun([close], Pushed(s, a), tag, cond) == Ok(Yielded(s, a + close.render))
  {
    var s2 := Pushed(s, a);
    CloseStep(s2, close, tag, cond);
    assert s2.tagDepth[..|s.h|] == s.tagDepth;
    assert s2.h[..|s.h|] == AppendEach(s.h, a);
    AppendEachTwice(s.h, a, close.render);
    assert AllStep(s2, close, tag, cond) == Ok(Yielded(s, a + close.render));
    Single(close, s2, Yielded(s, a + close.render), tag, cond);
  }

  /** The body and end tag of a matched element, once its frame is pushed. */
  lemma BodyClose(body: seq<Token>, close: Token, s: AllState, a: string, tag: string, cond: AttrCond)
    requires Parallel(s)
    requires Balanced(body) && Quiet(body, tag, cond)
    requires close.kind == EndTag && close.name == tag
    ensures FindAllRun(body + [close], Pushed(s, a), tag, cond) == Ok(Yielded(s, a + RenderAll(body) + close.render))
  {
    var s1 := Pushed(s, a);
    PassOpen(body, s1, tag, cond);
    PassedFrame(s, a, body);
    ElementClose(s, a + RenderAll(body), close, tag, cond);
    RunSeq(body, [close], s1, Pushed(s, a + RenderAll(body)), Yielded(s, a + RenderAll(body) + close.render), tag, cond);
  }

  /** One matched element whose body is well nested and holds no other
      match: its rendering is appended to the result, it is also written
      to every enclosing frame, and the stack and depth are as before. */
  lemma ElementRun(open: Token, body: seq<Token>, close: Token, s: AllState, tag: string, cond: AttrCond)
    requires Parallel(s)
    requires OpensMatch(open, tag, cond)
    requires Balanced(body) && Quiet(body, tag, cond)
    requires close.kind == EndTag && close.name == tag
    ensures FindAllRun([open] + body + [close], s, tag, cond) == Ok(Yielded(s, Fragment(open, body, close)))
  {
    OpenStep(s, open, tag, cond);
    assert AllStep(s, open, tag, cond) == Ok(Pushed(s, open.render));
    BodyClose(body, close, s, open.render, tag, cond);
    var ts := [open] + body + [close];
    assert ts[0] == open && ts[1..] == body + [close];
  }

  /** A top-level element: idle tokens, then one matched element. */
  datatype Element = Element(lead: seq<Token>, open: Token, body: seq<Token>, close: Token)

  predicate WellFormed(e: Element, tag: string, cond: AttrCond)
  {
    Idle(e.lead, tag, cond) && OpensMatch(e.open, tag, cond)
    && Balanced(e.body) && Quiet(e.body, tag, cond)
    && e.close.kind == EndTag && e.close.name == tag
  }

  function ElementTokens(e: Element): seq<Token>
  {
    e.lead + ([e.open] + e.body + [e.close])
  }

  function Flatten(es: seq<Element>): seq<Token>
  {
    if |es| == 0 then [] else ElementTokens(es[0]) + Flatten(es[1..])
  }

  function Fragments(es: seq<Element>): seq<string>
  {
    if |es| == 0 then [] else [Fragment(es[0].open, es[0].body, es[0].close)] + Fragments(es[1..])
  }

  predicate AllWellFormed(es: seq<Element>, tag: string, cond: AttrCond)
  {
    |es| == 0 || (WellFormed(es[0], tag, cond) && AllWellFormed(es[1..], tag, cond))
  }

  /** One top-level element, with no frame open before it. */
  lemma TopElement(e: Element, s: AllState, tag: string, cond: AttrCond)
    requires Parallel(s) && |s.h| == 0
    requires WellFormed(e, tag, cond)
    ensures FindAllRun(ElementTokens(e), s, tag, cond)
            == Ok(AllState(s.depth + Depth(e.lead), [], [], s.ret + [Fragment(e.open, e.body, e.close)]))
  {
    var s1 := s.(depth := s.depth + Depth(e.lead));
    PassIdle(e.lead, s, tag, cond);
    ElementRun(e.open, e.body, e.close, s1, tag, cond);
    var f := Fragment(e.open, e.body, e.close);
    assert AppendEach(s1.h, f) == [];
    assert Yielded(s1, f) == AllState(s.depth + Depth(e.lead), [], [], s.ret + [f]);
    RunSeq(e.lead, [e.open] + e.body + [e.close], s, s1, Yielded(s1, f), tag, cond);
  }

  /** How far the idle tokens between elements move the depth. */
  function LeadDepth(es: seq<Element>): int
  {
    if |es| == 0 then 0 else Depth(es[0].lead) + LeadDepth(es[1..])
  }

  /** The state after top-level elements, with no frame open before them. */
  function AfterSiblings(es: seq<Element>, s: AllState): AllState
  {
    AllState(s.depth + LeadDepth(es), [], [], s.ret + Fragments(es))
  }

  /** Top-level matched elements separated by idle tokens, with no frame
      open before them, add one fragment each, in stream order. */
  lemma {:induction false} SiblingsRun(es: seq<Element>, s: AllState, tag: string, cond: AttrCond)
    requires Parallel(s) && |s.h| == 0
    requires AllWellFormed(es, tag, cond)
    ensures FindAllRun(Flatten(es), s, tag, cond) == Ok(AfterSiblings(es, s))
  {
    if |es| == 0 {
      assert s.tagDepth == [];
      assert s.ret + [] == s.ret;
    } else {
      var e := es[0];
      var s1 := AllState(s.depth + Depth(e.lead), [], [], s.ret + [Fragment(e.open, e.body, e.close)]);
      TopElement(e, s, tag, cond);
      SiblingsRun(es[1..], s1, tag, cond);
      AfterSiblingsCons(es, s, s1);
      assert Flatten(es) == ElementTokens(e) + Flatten(es[1..]);
      RunSeq(ElementTokens(e), Flatten(es[1..]), s, s1, AfterSiblings(es, s), tag, cond);
    }
  }

  /** The state after the first element, then the others. */
  lemma AfterSiblingsCons(es: seq<Element>, s: AllState, s1: AllState)
    requires |es| > 0
    requires s1 == AllState(s.depth + Depth(es[0].lead), [], [], s.ret + [Fragment(es[0].open, es[0].body, es[0].close)])
    ensures AfterSiblings(es[1..], s1) == AfterSiblings(es, s)
  {
    var f := Fragment(es[0].open, es[0].body, es[0].close);
    assert s.ret + [f] + Fragments(es[1..]) == s.ret + Fragments(es);
  }

  /** Top-level matched elements, each after its own idle tokens, are
      returned in stream order, one fragment each. */
  lemma Siblings(es: seq<Element>, tag: string, cond: AttrCond)
    requires AllWellFormed(es, tag, cond)
    ensures FindAll(Flatten(es), tag, cond) == Ok(Fragments(es))
  {
    SiblingsRun(es, Start, tag, cond);
    assert Start.ret + Fragments(es) == Fragments(es);
  }

  /** With no frame open, a match followed by quiet tokens that stay inside
      it leaves one frame open, holding the match's start tag and those
      tokens; the fragments already yielded stay as they are. */
  lemma OpenFrom(open: Token, mid: seq<Token>, s: AllState, tag: string, cond: AttrCond)
    requires Parallel(s) && |s.h| == 0
    requires OpensMatch(open, tag, cond)
    requires StaysAbove(mid, 0) && Quiet(mid, tag, cond)
    ensures FindAllRun([open] + mid, s, tag, cond)
            == Ok(AllState(s.depth + 1 + Depth(mid), [s.depth + 1], [open.render + RenderAll(mid)], s.ret))
  {
    var d := s.depth;
    var s1 := AllState(d + 1, [d + 1], [open.render], s.ret);
    OpenStep(s, open, tag, cond);
    AppendEachSingle(open.render, open.render);
    assert s.tagDepth + [d + 1] == [d + 1] && s.h + [open.render] == [open.render];
    assert AllStep(s, open, tag, cond) == Ok(s1);
    Single(open, s, s1, tag, cond);
    PassOpen(mid, s1, tag, cond);
    AppendEachSingle(open.render, RenderAll(mid));
    var s2 := AllState(d + 1 + Depth(mid), [d + 1], [open.render + RenderAll(mid)], s.ret);
    assert Passed(s1, mid) == s2;
    RunSeq([open], mid, s, s1, s2, tag, cond);
  }

  /** From the start of the stream: idle tokens, a match, then quiet tokens
      that stay inside it. */
  lemma OpenedRun(lead: seq<Token>, open: Token, mid: seq<Token>, tag: string, cond: AttrCond)
    requires Idle(lead, tag, cond) && OpensMatch(open, tag, cond)
    requires StaysAbove(mid, 0) && Quiet(mid, tag, cond)
    ensures FindAllRun(lead + ([open] + mid), Start, tag, cond)
            == Ok(AllState(Depth(lead) + 1 + Depth(mid), [Depth(lead) + 1], [open.render + RenderAll(mid)], []))
  {
    var d := Depth(lead);
    PassIdle(lead, Start, tag, cond);
    assert Start.(depth := Start.depth + d) == AllState(d, [], [], []);
    OpenFrom(open, mid, AllState(d, [], [], []), tag, cond);
    RunSeq(lead, [open] + mid, Start, AllState(d, [], [], []),
           AllState(d + 1 + Depth(mid), [d + 1], [open.render + RenderAll(mid)], []), tag, cond);
  }

  /** The end tag of the only open frame flushes it. */
  lemma LastClose(close: Token, d: int, c: string, ret: seq<string>, tag: string, cond: AttrCond)
    requires close.kind == EndTag && close.name == tag
    ensures FindAllRun([close], AllState(d, [d], [c], ret), tag, cond)
            == Ok(AllState(d - 1, [], [], ret + [c + close.render]))
  {
    var s4 := AllState(d, [d], [c], ret);
    CloseStep(s4, close, tag, cond);
    AppendEachSingle(c, close.render);
    var s5 := AllState(d - 1, [], [], ret + [c + close.render]);
    assert s4.tagDepth[..0] == [] && s4.h[..0] == [];
    assert AllStep(s4, close, tag, cond) == Ok(s5);
    Single(close, s4, s5, tag, cond);
  }

  /** The only open frame, at depth `d`, holding `b`: quiet tokens that come
      back to its depth and then its end tag flush it. */
  lemma OuterClose(mid2: seq<Token>, close1: Token, s: AllState, d: int, b: string, tag: string, cond: AttrCond)
    requires s.tagDepth == [d] && s.h == [b]
    requires StaysAbove(mid2, s.depth - d) && s.depth + Depth(mid2) == d
    requires Quiet(mid2, tag, cond)
    requires close1.kind == EndTag && close1.name == tag
    ensures FindAllRun(mid2 + [close1], s, tag, cond)
            == Ok(AllState(d - 1, [], [], s.ret + [b + RenderAll(mid2) + close1.render]))
  {
    PassOpen(mid2, s, tag, cond);
    var c := b + RenderAll(mid2);
    AppendEachSingle(b, RenderAll(mid2));
    var s4 := AllState(d, [d], [c], s.ret);
    assert Passed(s, mid2) == s4;
    LastClose(close1, d, c, s.ret, tag, cond);
    RunSeq(mid2, [close1], s, s4, AllState(d - 1, [], [], s.ret + [c + close1.render]), tag, cond);
  }

  /** The part of `Nested` up to the inner element's end tag. */
  lemma NestedPrefix(lead: seq<Token>, open1: Token, mid: seq<Token>, open2: Token, body: seq<Token>,
                     close2: Token, p: seq<Token>, s3: AllState, tag: string, cond: AttrCond)
    requires Idle(lead, tag, cond)
    requires OpensMatch(open1, tag, cond) && OpensMatch(open2, tag, cond)
    requires StaysAbove(mid, 0) && Quiet(mid, tag, cond)
    requires Balanced(body) && Quiet(body, tag, cond)
    requires close2.kind == EndTag && close2.name == tag
    requires p == lead + ([open1] + mid) + ([open2] + body + [close2])
    requires var inner := Fragment(open2, body, close2);
             s3 == AllState(Depth(lead) + 1 + Depth(mid), [Depth(lead) + 1], [open1.render + RenderAll(mid) + inner], [inner])
    ensures FindAllRun(p, Start, tag, cond) == Ok(s3)
  {
    var d := Depth(lead) + 1;
    var a := open1.render + RenderAll(mid);
    var inner := Fragment(open2, body, close2);
    var s2 := AllState(d + Depth(mid), [d], [a], []);
    OpenedRun(lead, open1, mid, tag, cond);
    ElementRun(open2, body, close2, s2, tag, cond);
    AppendEachSingle(a, inner);
    assert Yielded(s2, inner) == s3;
    RunSeq(lead + ([open1] + mid), [open2] + body + [close2], Start, s2, s3, tag, cond);
  }

  lemma NestedRegroup(lead: seq<Token>, open1: Token, mid: seq<Token>, open2: Token, body: seq<Token>,
                      close2: Token, mid2: seq<Token>, close1: Token, tail: seq<Token>)
    ensures lead + [open1] + mid + [open2] + body + [close2] + mid2 + [close1] + tail
            == lead + ([open1] + mid) + ([open2] + body + [close2]) + (mid2 + [close1] + tail)
  {
  }

  /** The part of `Nested` after the inner element's end tag. */
  lemma NestedSuffix(mid2: seq<Token>, close1: Token, tail: seq<Token>, s: AllState, d: int, r: int, b: string,
                     q: seq<Token>, s5: AllState, tag: string, cond: AttrCond)
    requires s.tagDepth == [d] && s.h == [b] && s.depth == d + r
    requires StaysAbove(mid2, r) && r + Depth(mid2) == 0
    requires Quiet(mid2, tag, cond) && Idle(tail, tag, cond)
    requires close1.kind == EndTag && close1.name == tag
    requires q == mid2 + [close1] + tail
    requires s5 == AllState(d - 1 + Depth(tail), [], [], s.ret + [b + RenderAll(mid2) + close1.render])
    ensures FindAllRun(q, s, tag, cond) == Ok(s5)
  {
    var s4 := AllState(d - 1, [], [], s.ret + [b + RenderAll(mid2) + close1.render]);
    assert s.depth - d == r;
    OuterClose(mid2, close1, s, d, b, tag, cond);
    PassIdle(tail, s4, tag, cond);
    RunSeq(mid2 + [close1], tail, s, s4, s4.(depth := s4.depth + Depth(tail)), tag, cond);
  }

  /** An inner match closes first: a matched element holding another one
      (its body well nested and free of further matches) gives the inner
      fragment, then the outer fragment, which contains the inner one. */
  lemma Nested(lead: seq<Token>, open1: Token, mid: seq<Token>, open2: Token, body: seq<Token>,
               close2: Token, mid2: seq<Token>, close1: Token, tail: seq<Token>, tag: string, cond: AttrCond)
    requires Idle(lead, tag, cond) && Idle(tail, tag, cond)
    requires OpensMatch(open1, tag, cond) && OpensMatch(open2, tag, cond)
    requires StaysAbove(mid, 0) && Quiet(mid, tag, cond)
    requires Balanced(body) && Quiet(body, tag, cond)
    requires StaysAbove(mid2, Depth(mid)) && Depth(mid) + Depth(mid2) == 0 && Quiet(mid2, tag, cond)
    requires close1.kind == EndTag && close1.name == tag
    requires close2.kind == EndTag && close2.name == tag
    ensures var inner := Fragment(open2, body, close2);
            FindAll(lead + [open1] + mid + [open2] + body + [close2] + mid2 + [close1] + tail, tag, cond)
            == Ok([inner, open1.render + RenderAll(mid) + inner + RenderAll(mid2) + close1.render])
  {
    var d := Depth(lead) + 1;
    var inner := Fragment(open2, body, close2);
    var b := open1.render + RenderAll(mid) + inner;
    var p := lead + ([open1] + mid) + ([open2] + body + [close2]);
    var q := mid2 + [close1] + tail;
    var s3 := AllState(d + Depth(mid), [d], [b], [inner]);
    var s5 := AllState(d - 1 + Depth(tail), [], [], [inner] + [b + RenderAll(mid2) + close1.render]);
    NestedPrefix(lead, open1, mid, open2, body, close2, p, s3, tag, cond);
    NestedSuffix(mid2, close1, tail, s3, d, Depth(mid), b, q, s5, tag, cond);
    NestedJoin(lead, open1, mid, open2, body, close2, mid2, close1, tail, p, q, s3, s5, tag, cond);
  }

  /** The end of `Nested`: the two stretches make up the whole stream. */
  lemma NestedJoin(lead: seq<Token>, open1: Token, mid: seq<Token>, open2: Token, body: seq<Token>,
                   close2: Token, mid2: seq<Token>, close1: Token, tail: seq<Token>,
                   p: seq<Token>, q: seq<Token>, s3: AllState, s5: AllState, tag: string, cond: AttrCond)
    requires p == lead + ([open1] + mid) + ([open2] + body + [close2]) && q == mid2 + [close1] + tail
    requires Parallel(s3) && FindAllRun(p, Start, tag, cond) == Ok(s3) && FindAllRun(q, s3, tag, cond) == Ok(s5)
    requires var inner := Fragment(open2, body, close2);
             s5.ret == [inner] + [open1.render + RenderAll(mid) + inner + RenderAll(mid2) + close1.render]
    ensures var inner := Fragment(open2, body, close2);
            FindAll(lead + [open1] + mid + [open2] + body + [close2] + mid2 + [close1] + tail, tag, cond)
            == Ok([inner, open1.render + RenderAll(mid) + inner + RenderAll(mid2) + close1.render])
  {
    NestedRegroup(lead, open1, mid, open2, body, close2, mid2, close1, tail);
    RunFrom(p, q, s3, s5, tag, cond);
    var inner := Fragment(open2, body, close2);
    var outer := open1.render + RenderAll(mid) + inner + RenderAll(mid2) + close1.render;
    assert [inner] + [outer] == [inner, outer];
  }

  /** A frame still open when the stream ends is dropped: after any stretch
      that ends with no frame open, a match whose element is cut off by the
      end of the stream adds nothing to the fragments yielded before it. */
  lemma Truncated(pre: seq<Token>, open: Token, body: seq<Token>, tag: string, cond: AttrCond)
    requires FindAllRun(pre, Start, tag, cond).Ok? && |FindAllRun(pre, Start, tag, cond).value.h| == 0
    requires OpensMatch(open, tag, cond)
    requires StaysAbove(body, 0) && Quiet(body, tag, cond)
    ensures FindAll(pre + [open] + body, tag, cond) == Ok(FindAllRun(pre, Start, tag, cond).value.ret)
  {
    var s := FindAllRun(pre, Start, tag, cond).value;
    OpenFrom(open, body, s, tag, cond);
    var s2 := AllState(s.depth + 1 + Depth(body), [s.depth + 1], [open.render + RenderAll(body)], s.ret);
    RunSeq(pre, [open] + body, Start, s, s2, tag, cond);
    assert pre + [open] + body == pre + ([open] + body);
  }

  /** An end tag named `tag` while no frame is open panics, whatever
      follows. */
  lemma UnmatchedClosePanics(lead: seq<Token>, close: Token, rest: seq<Token>, tag: string, cond: AttrCond)
    requires Idle(lead, tag, cond)
    requires close.kind == EndTag && close.name == tag
    ensures FindAll(lead + [close] + rest, tag, cond) == IndexOutOfRange
  {
    var s1 := Start.(depth := Depth(lead));
    PassIdle(lead, Start, tag, cond);
    assert Dispatch(s1, close, tag, cond) == IndexOutOfRange;
    assert FindAllRun([close], s1, tag, cond) == IndexOutOfRange;
    FailSeq([close], rest, s1, tag, cond);
    assert FindAllRun(lead + ([close] + rest), Start, tag, cond) == FindAllRun([close] + rest, s1, tag, cond) by {
      RunThen(lead, [close] + rest, Start, s1, tag, cond);
    }
    assert lead + [close] + rest == lead + ([close] + rest);
  }

  /** After a stretch that leads to `s1`, the rest runs from `s1`. */
  lemma {:induction false} RunThen(a: seq<Token>, b: seq<Token>, s0: AllState, s1: AllState, tag: string, cond: AttrCond)
    requires Parallel(s0) && FindAllRun(a, s0, tag, cond) == Ok(s1)
    ensures Parallel(s1) && FindAllRun(a + b, s0, tag, cond) == FindAllRun(b, s1, tag, cond)
  {
    if |a| == 0 {
      assert a + b == b;
    } else {
      var t := a[0];
      assert (a + b)[0] == t && (a + b)[1..] == a[1..] + b;
      RunThen(a[1..], b, AllStep(s0, t, tag, cond).value, s1, tag, cond);
    }
  }

  // -----------------------------------------------------------------------
  // The unmatched end tag.  With no frame open, an end tag named `tag`
  // reads `tagDepth[-1]`: a document holding an element named `tag` that
  // fails the condition, outside every match, makes `HtmlFindAll` panic.
  // Below, the guarded loop that evidently was meant, where such an end tag
  // only moves the depth.

  /** `<div></div>` with a class condition the `div` does not meet: the
      as-written loop panics, the guarded one finds nothing. */
  lemma UnmatchedDivPanics()
    ensures var open := Token(StartTag, "div", [], "<div>");
            var close := Token(EndTag, "div", [], "</div>");
            var cond := Cond(HtmlKeyInAttr("class", "x"));
            FindAll([open, close], "div", cond) == IndexOutOfRange
            && GuardedFindAll([open, close], "div", cond) == []
  {
    var open := Token(StartTag, "div", [], "<div>");
    var close := Token(EndTag, "div", [], "</div>");
    var cond := Cond(HtmlKeyInAttr("class", "x"));
    var s1 := Start.(depth := 1);
    assert AllStep(Start, open, "div", cond) == Ok(s1);
    assert [open, close][1..] == [close];
    assert AllStep(s1, close, "div", cond) == IndexOutOfRange;
    assert GuardedStep(Start, open, "div", cond) == s1;
    assert GuardedStep(s1, close, "div", cond) == Start;
    assert [close][1..] == [];
  }

  /** The `switch` with the end-tag arm guarded by "a frame is open": it
      agrees with `Dispatch` wherever that does not panic, and otherwise
      only moves the depth. */
  function GuardedDispatch(s: AllState, t: Token, tag: string, cond: AttrCond): (r: (AllState, bool))
    ensures Dispatch(s, t, tag, cond).Ok? ==> r == Dispatch(s, t, tag, cond).value
    ensures Dispatch(s, t, tag, cond).IndexOutOfRange? ==> r == (s.(depth := s.depth - 1), false)
  {
    if t.kind == EndTag && t.name == tag && |s.tagDepth| == 0 then (s.(depth := s.depth - 1), false)
    else Dispatch(s, t, tag, cond).value
  }

  /** One turn of the guarded loop. */
  function GuardedStep(s: AllState, t: Token, tag: string, cond: AttrCond): (r: AllState)
    requires Parallel(s)
    ensures Parallel(r)
  {
    var (s1, push) := GuardedDispatch(s, t, tag, cond);
    Finish(s1, push, t)
  }

  function GuardedRun(ts: seq<Token>, s: AllState, tag: string, cond: AttrCond): (r: AllState)
    requires Parallel(s)
    ensures Parallel(r)
  {
    if |ts| == 0 then s else GuardedRun(ts[1..], GuardedStep(s, ts[0], tag, cond), tag, cond)
  }

  /** The guarded extractor: it returns a result for every stream. */
  function GuardedFindAll(ts: seq<Token>, tag: string, cond: AttrCond): seq<string>
  {
    GuardedRun(ts, Start, tag, cond).ret
  }

  /** Wherever the as-written loop runs to the end, the guarded one ends in
      the same state. */
  lemma {:induction false} GuardedRunAgrees(ts: seq<Token>, s: AllState, tag: string, cond: AttrCond)
    requires Parallel(s) && FindAllRun(ts, s, tag, cond).Ok?
    ensures GuardedRun(ts, s, tag, cond) == FindAllRun(ts, s, tag, cond).value
  {
    if |ts| > 0 {
      var s1 := AllStep(s, ts[0], tag, cond).value;
      assert GuardedStep(s, ts[0], tag, cond) == s1;
      GuardedRunAgrees(ts[1..], s1, tag, cond);
    }
  }

  /** The guarded extractor returns what `HtmlFindAll` returns whenever
      that does not panic, so every property proved above of `FindAll`
      holds of it too. */
  lemma GuardedFindAllAgrees(ts: seq<Token>, tag: string, cond: AttrCond)
    requires FindAll(ts, tag, cond).Ok?
    ensures GuardedFindAll(ts, tag, cond) == FindAll(ts, tag, cond).value
  {
    GuardedRunAgrees(ts, Start, tag, cond);
  }

  /** With no frame open, tokens that open none only move the depth, even
      when they hold end tags named `tag`. */
  lemma {:induction false} GuardedQuiet(ts: seq<Token>, s: AllState, tag: string, cond: AttrCond)
    requires Parallel(s) && |s.h| == 0
    requires Quiet(ts, tag, cond)
    ensures GuardedRun(ts, s, tag, cond) == s.(depth := s.depth + Depth(ts))
  {
    if |ts| > 0 {
      var s1 := s.(depth := s.depth + Delta(ts[0]));
      assert GuardedStep(s, ts[0], tag, cond) == s1 by {
        AppendEachNothing(s.h);
      }
      GuardedQuiet(ts[1..], s1, tag, cond);
    }
  }

  /** A stream without a match yields no fragment. */
  lemma GuardedNoMatch(ts: seq<Token>, tag: string, cond: AttrCond)
    requires Quiet(ts, tag, cond)
    ensures GuardedFindAll(ts, tag, cond) == []
  {
    GuardedQuiet(ts, Start, tag, cond);
  }
}
