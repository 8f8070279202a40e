/** The token filter of `SoapfGetChapter`: it walks the tokens of a
    chapter's `entry-content` block and is meant to drop advertisement
    blocks (a `div` of class `code-block` or a `span` of class
    `has-inline-color`, up to the end tag met at the same depth), stop at
    the `hr` separator of class `wp-block-separator`, and close the output
    with `</div>`.

    As written, the `fallthrough` after `depth += 1` enters the
    advertisement arm for EVERY start tag, so every start tag opens a
    skipped region, and the latest one decides at which depth a `div` or
    `span` end tag closes it.  `Switch`, `FilterStep`, `Chapter` and the method
    `SoapfGetChapter` model the code as written; `IntendedSwitch` and
    `IntendedChapter` model the filter with the arm guarded by its own
    condition. */
module ChapterFilter {
  import opened Text
  import opened Tokens
  import opened Attrs
  import Find

  /** The loop's variables. */
  datatype FilterState = FilterState(loop: bool, skip: bool, inAd: bool, depth: int, adDepth: int, out: string)

  const Initial := FilterState(true, false, false, 0, -1, "")

  /** A start tag that opens an advertisement block. */
  predicate IsAdOpen(t: Token)
  {
    t.kind == StartTag
    && ((t.name == "div" && HtmlCheckAttrs(Cond(HtmlKeyInAttr("class", "code-block")), t.attrs))
        || (t.name == "span" && HtmlCheckAttrs(Cond(HtmlKeyInAttr("class", "has-inline-color")), t.attrs)))
  }

  /** An end tag that may close an advertisement block. */
  predicate IsAdEnd(t: Token)
  {
    t.kind == EndTag && (t.name == "div" || t.name == "span")
  }

  /** The separator that ends the chapter text. */
  predicate IsSeparator(t: Token)
  {
    t.kind == SelfClosingTag && t.name == "hr"
    && HtmlCheckAttrs(Cond(HtmlKeyInAttr("class", "wp-block-separator")), t.attrs)
  }

  /** The `switch` of one turn, as written: the start-tag arm falls through
      into the advertisement arm unconditionally, and an advertisement end
      falls through into the plain end-tag arm. */
  function Switch(s: FilterState, t: Token): FilterState
  {
    match t.kind
    case StartTag =>
      var d := s.depth + 1;
      s.(depth := d, skip := true, adDepth := d, inAd := true)
    case EndTag =>
      if IsAdEnd(t) && s.depth == s.adDepth then s.(inAd := false, adDepth := -1, depth := s.depth - 1)
      else s.(depth := s.depth - 1)
    case SelfClosingTag =>
      if IsSeparator(t) then s.(loop := false, skip := true) else s
    case Other =>
      s
  }

  /** The bottom of the loop body: write the token unless skipping, then
      stop skipping once outside an advertisement. */
  function Write(s: FilterState, t: Token): FilterState
  {
    var s1 := if !s.skip then s.(out := s.out + t.render) else s;
    if s1.skip && !s1.inAd then s1.(skip := false) else s1
  }

  function FilterStep(s: FilterState, t: Token): FilterState
  {
    Write(Switch(s, t), t)
  }

  /** The loop, until the separator clears `loop` or the stream ends. */
  function FilterRun(ts: seq<Token>, s: FilterState): FilterState
  {
    if !s.loop || |ts| == 0 then s else FilterRun(ts[1..], FilterStep(s, ts[0]))
  }

  /** What the filter returns for the tokens of the `entry-content` block. */
  function Chapter(ts: seq<Token>): string
  {
    FilterRun(ts, Initial).out + "</div>"
  }

  /** The `switch` on the loop's variables. */
  method SwitchToken(token: Token, loop0: bool, skip0: bool, inAd0: bool, depth0: int, adDepth0: int, ghost out: string)
    returns (loop: bool, skip: bool, inAd: bool, depth: int, adDepth: int)
    ensures FilterState(loop, skip, inAd, depth, adDepth, out)
            == Switch(FilterState(loop0, skip0, inAd0, depth0, adDepth0, out), token)
  {
    loop, skip, inAd, depth, adDepth := loop0, skip0, inAd0, depth0, adDepth0;
    if token.kind == StartTag {
      depth := depth + 1;
      // fallthrough
      skip := true;
      adDepth := depth;
      inAd := true;
    } else if token.kind == EndTag && (token.name == "div" || token.name == "span") && depth == adDepth {
      inAd := false;
      adDepth := -1;
      // fallthrough
      depth := depth - 1;
    } else if token.kind == EndTag {
      depth := depth - 1;
    } else if token.kind == SelfClosingTag && token.name == "hr"
              && HtmlCheckAttrs(Cond(HtmlKeyInAttr("class", "wp-block-separator")), token.attrs) {
      loop := false;
      skip := true;
    }
  }

  /** The filter loop over the tokens of the `entry-content` block. */
  method FilterChapter(tokens: seq<Token>) returns (r: string)
    ensures r == Chapter(tokens)
    ensures EndsWith(r, "</div>")
  {
    var ret := "";
    var loop := true;
    var skip := false;
    var inAd := false;
    var depth := 0;
    var adDepth := -1;
    var i := 0;
    while loop && i < |tokens|
      invariant 0 <= i <= |tokens|
      invariant FilterRun(tokens[i..], FilterState(loop, skip, inAd, depth, adDepth, ret))
                == FilterRun(tokens, Initial)
      decreases |tokens| - i
    {
      assert tokens[i..][1..] == tokens[i + 1..];
      var token := tokens[i];
      loop, skip, inAd, depth, adDepth := SwitchToken(token, loop, skip, inAd, depth, adDepth, ret);
      if !skip {
        ret := ret + token.render;
      }
      if skip && !inAd {
        skip := false;
      }
      i := i + 1;
    }
    r := ret + "</div>";
  }

  /** `SoapfGetChapter`: the first `div` of class `entry-content` in the
      page, tokenized again and filtered.  `tokenize` stands for the HTML
      tokenizer run over a string. */
  method SoapfGetChapter(page: seq<Token>, tokenize: string -> seq<Token>) returns (r: string)
    ensures r == Chapter(tokenize(Find.Find(page, "div", Cond(HtmlKeyInAttr("class", "entry-content")))))
    ensures EndsWith(r, "</div>")
  {
    var h := Find.HtmlFindByAttr(page, "div", "class", "entry-content");
    r := FilterChapter(tokenize(h));
  }

  // -----------------------------------------------------------------------
  // Properties of the filter as written.

  /** `skip` is set exactly while inside a (supposed) advertisement, and
      `adDepth` is -1 outside one. */
  predicate Inv(s: FilterState)
  {
    s.skip == s.inAd && (s.inAd || s.adDepth == -1)
  }

  lemma StepKeepsInv(s: FilterState, t: Token)
    requires Inv(s)
    ensures Inv(FilterStep(s, t))
  {
  }

  lemma {:induction false} RunKeepsInv(ts: seq<Token>, s: FilterState)
    requires Inv(s)
    ensures Inv(FilterRun(ts, s))
  {
    if s.loop && |ts| > 0 {
      StepKeepsInv(s, ts[0]);
      RunKeepsInv(ts[1..], FilterStep(s, ts[0]));
    }
  }

  /** Every start tag, whatever its name and attributes, enters the
      advertisement arm: it is not written and skipping starts. */
  lemma StartTagSkipped(s: FilterState, t: Token)
    requires t.kind == StartTag
    ensures FilterStep(s, t).out == s.out
    ensures FilterStep(s, t).inAd && FilterStep(s, t).skip
    ensures FilterStep(s, t).adDepth == FilterStep(s, t).depth == s.depth + 1
  {
  }

  /** Once skipping, only a `div` or `span` end tag at the depth the
      skipped region was opened at stops it. */
  lemma SkipEndsOnlyAtAdEnd(s: FilterState, t: Token)
    requires Inv(s) && s.inAd
    ensures !FilterStep(s, t).skip <==> IsAdEnd(t) && s.depth == s.adDepth
    ensures FilterStep(s, t).out == s.out
  {
  }

  /** The separator stops the loop without being written; nothing after it
      is read. */
  lemma SeparatorStops(t: Token, rest: seq<Token>, s: FilterState)
    requires s.loop && IsSeparator(t)
    ensures FilterRun([t] + rest, s).out == s.out
    ensures !FilterRun([t] + rest, s).loop
  {
    assert ([t] + rest)[1..] == rest;
  }

  /** Running two stretches one after the other. */
  lemma {:induction false} RunAppend(a: seq<Token>, b: seq<Token>, s: FilterState)
    ensures FilterRun(a + b, s) == FilterRun(b, FilterRun(a, s))
  {
    if !s.loop {
    } else if |a| == 0 {
      assert a + b == b;
    } else {
      assert (a + b)[0] == a[0] && (a + b)[1..] == a[1..] + b;
      RunAppend(a[1..], b, FilterStep(s, a[0]));
    }
  }

  /** No end tag that could close an advertisement. */
  predicate NoAdEnd(ts: seq<Token>)
  {
    |ts| == 0 || (!IsAdEnd(ts[0]) && NoAdEnd(ts[1..]))
  }

  /** Neither a start tag nor the separator. */
  predicate NoStartNorSeparator(ts: seq<Token>)
  {
    |ts| == 0 || (ts[0].kind != StartTag && !IsSeparator(ts[0]) && NoStartNorSeparator(ts[1..]))
  }

  /** While skipping, nothing is written until a `div` or `span` end tag
      comes. */
  lemma {:induction false} SkippedRun(ts: seq<Token>, s: FilterState)
    requires s.inAd && s.skip
    requires NoAdEnd(ts)
    ensures FilterRun(ts, s).out == s.out
  {
    if s.loop && |ts| > 0 {
      SkippedRun(ts[1..], FilterStep(s, ts[0]));
    }
  }

  /** Outside a skipped region, tokens that are neither start tags nor the
      separator are all written. */
  lemma {:induction false} WrittenRun(ts: seq<Token>, s: FilterState)
    requires s.loop && Inv(s) && !s.inAd
    requires NoStartNorSeparator(ts)
    ensures FilterRun(ts, s).loop && !FilterRun(ts, s).inAd
    ensures FilterRun(ts, s).out == s.out + RenderAll(ts)
  {
    if |ts| == 0 {
      assert s.out + "" == s.out;
    } else {
      var s1 := FilterStep(s, ts[0]);
      assert s1.loop && Inv(s1) && !s1.inAd && s1.out == s.out + ts[0].render;
      WrittenRun(ts[1..], s1);
    }
  }

  /** A start tag with no `div` or `span` end tag after it hides the whole
      rest of the chapter: only what came before it, and the closing
      `</div>`, is returned. */
  lemma StartTagHidesRest(pre: seq<Token>, open: Token, rest: seq<Token>)
    requires NoStartNorSeparator(pre)
    requires open.kind == StartTag && NoAdEnd(rest)
    ensures Chapter(pre + [open] + rest) == RenderAll(pre) + "</div>"
  {
    var s1 := FilterRun(pre, Initial);
    WrittenRun(pre, Initial);
    assert s1.out == RenderAll(pre);
    var s2 := FilterStep(s1, open);
    StartTagSkipped(s1, open);
    SkippedRun(rest, s2);
    assert ([open] + rest)[1..] == rest;
    assert FilterRun([open] + rest, s1) == FilterRun(rest, s2);
    RunAppend(pre, [open] + rest, Initial);
    assert pre + [open] + rest == pre + ([open] + rest);
  }

  /** An element holding only text, whose tags open no advertisement, is
      dropped whole; the guarded filter keeps it. */
  lemma TextElementLost(open: Token, text: Token, close: Token)
    requires open.kind == StartTag && !IsAdOpen(open)
    requires text.kind == Other && close.kind == EndTag && !IsAdEnd(close)
    ensures Chapter([open, text, close]) == "</div>"
    ensures IntendedChapter([open, text, close]) == open.render + text.render + close.render + "</div>"
  {
    var p := [open, text, close];
    assert p == [] + [open] + [text, close];
    StartTagHidesRest([], open, [text, close]);
    assert Plain([close]) && Plain([text, close]) && Plain(p) by {
      assert [close][1..] == [] && [text, close][1..] == [close] && p[1..] == [text, close];
    }
    PlainKept(p);
    assert RenderAll([close]) == close.render by {
      assert [close][1..] == [];
    }
    assert RenderAll([text, close]) == text.render + close.render by {
      assert [text, close][1..] == [close];
    }
    assert RenderAll(p) == open.render + (text.render + close.render) by {
      assert p[1..] == [text, close];
    }
  }

  /** `<p>hi</p>`: the paragraph is lost and only `</div>` is returned,
      where the guarded filter keeps it. */
  lemma ParagraphLost()
    ensures var p := [Token(StartTag, "p", [], "<p>"), Token(Other, "", [], "hi"), Token(EndTag, "p", [], "</p>")];
            Chapter(p) == "</div>" && IntendedChapter(p) == "<p>hi</p></div>"
  {
    var open := Token(StartTag, "p", [], "<p>");
    var close := Token(EndTag, "p", [], "</p>");
    assert !IsAdOpen(open) && !IsAdEnd(close);
    TextElementLost(open, Token(Other, "", [], "hi"), close);
  }

  /** `<div><span>x</span>more</div>`: the `span` start tag moves the end of
      the skipped region to its own depth, so writing resumes after
      `</span>`, and the text and end tag that follow are kept. */
  lemma LatestStartDecides()
    ensures var ts := [Token(StartTag, "div", [], "<div>"), Token(StartTag, "span", [], "<span>"),
                       Token(Other, "", [], "x"), Token(EndTag, "span", [], "</span>"),
                       Token(Other, "", [], "more"), Token(EndTag, "div", [], "</div>")];
            Chapter(ts) == "more</div>" + "</div>"
  {
    var div, span := Token(StartTag, "div", [], "<div>"), Token(StartTag, "span", [], "<span>");
    var x, spanEnd := Token(Other, "", [], "x"), Token(EndTag, "span", [], "</span>");
    var more, divEnd := Token(Other, "", [], "more"), Token(EndTag, "div", [], "</div>");
    var ts := [div, span, x, spanEnd, more, divEnd];
    var s2 := FilterState(true, true, true, 2, 2, "");
    var s4 := FilterState(true, false, false, 1, -1, "");
    var s6 := FilterState(true, false, false, 0, -1, "more</div>");
    NestedStarts(div, span);
    SpanEndResumes(x, spanEnd);
    TextAndEndKept(more, divEnd);
    assert ts == [div, span] + [x, spanEnd] + [more, divEnd];
    ThreeStretches([div, span], [x, spanEnd], [more, divEnd], Initial, s2, s4, s6);
    assert FilterRun(ts, Initial).out == "more</div>";
  }

  /** Three stretches run one after the other. */
  lemma ThreeStretches(a: seq<Token>, b: seq<Token>, c: seq<Token>, s0: FilterState, s1: FilterState,
                       s2: FilterState, s3: FilterState)
    requires FilterRun(a, s0) == s1 && FilterRun(b, s1) == s2 && FilterRun(c, s2) == s3
    ensures FilterRun(a + b + c, s0) == s3
  {
    RunAppend(a, b, s0);
    RunAppend(a + b, c, s0);
  }

  lemma NestedStarts(div: Token, span: Token)
    requires div == Token(StartTag, "div", [], "<div>") && span == Token(StartTag, "span", [], "<span>")
    ensures FilterRun([div, span], Initial) == FilterState(true, true, true, 2, 2, "")
  {
    assert FilterStep(Initial, div) == FilterState(true, true, true, 1, 1, "");
    TwoTokens(div, span, Initial);
  }

  lemma SpanEndResumes(x: Token, spanEnd: Token)
    requires x == Token(Other, "", [], "x") && spanEnd == Token(EndTag, "span", [], "</span>")
    ensures FilterRun([x, spanEnd], FilterState(true, true, true, 2, 2, ""))
            == FilterState(true, false, false, 1, -1, "")
  {
    var s2 := FilterState(true, true, true, 2, 2, "");
    assert FilterStep(s2, x) == s2;
    assert IsAdEnd(spanEnd);
    TwoTokens(x, spanEnd, s2);
  }

  lemma TextAndEndKept(more: Token, divEnd: Token)
    requires more == Token(Other, "", [], "more") && divEnd == Token(EndTag, "div", [], "</div>")
    ensures FilterRun([more, divEnd], FilterState(true, false, false, 1, -1, ""))
            == FilterState(true, false, false, 0, -1, "more</div>")
  {
    var s4 := FilterState(true, false, false, 1, -1, "");
    assert FilterStep(s4, more) == s4.(out := "more");
    TwoTokens(more, divEnd, s4);
  }

  /** Two tokens while the loop runs. */
  lemma TwoTokens(a: Token, b: Token, s: FilterState)
    requires s.loop && FilterStep(s, a).loop
    ensures FilterRun([a, b], s) == FilterStep(FilterStep(s, a), b)
  {
    var s1 := FilterStep(s, a);
    assert [a, b][1..] == [b] && [b][1..] == [];
    assert FilterRun([b], s1) == FilterRun([], FilterStep(s1, b));
  }

  // -----------------------------------------------------------------------
  // The guarded filter: only an advertisement start tag enters the
  // advertisement arm.

  /** The `switch` with the advertisement arm guarded by its own condition:
      a start tag that opens no advertisement only moves the depth. */
  function IntendedSwitch(s: FilterState, t: Token): (r: FilterState)
    ensures t.kind == StartTag && !IsAdOpen(t) ==> r == s.(depth := s.depth + 1)
    ensures !(t.kind == StartTag && !IsAdOpen(t)) ==> r == Switch(s, t)
  {
    if t.kind == StartTag && !IsAdOpen(t) then s.(depth := s.depth + 1) else Switch(s, t)
  }

  function IntendedStep(s: FilterState, t: Token): FilterState
  {
    Write(IntendedSwitch(s, t), t)
  }

  function IntendedRun(ts: seq<Token>, s: FilterState): FilterState
  {
    if !s.loop || |ts| == 0 then s else IntendedRun(ts[1..], IntendedStep(s, ts[0]))
  }

  function IntendedChapter(ts: seq<Token>): string
  {
    IntendedRun(ts, Initial).out + "</div>"
  }

  lemma {:induction false} IntendedAppend(a: seq<Token>, b: seq<Token>, s: FilterState)
    ensures IntendedRun(a + b, s) == IntendedRun(b, IntendedRun(a, s))
  {
    if !s.loop {
    } else if |a| == 0 {
      assert a + b == b;
    } else {
      assert (a + b)[0] == a[0] && (a + b)[1..] == a[1..] + b;
      IntendedAppend(a[1..], b, IntendedStep(s, a[0]));
    }
  }

  /** Neither an advertisement start tag nor the separator. */
  predicate Plain(ts: seq<Token>)
  {
    |ts| == 0 || (!IsAdOpen(ts[0]) && !IsSeparator(ts[0]) && Plain(ts[1..]))
  }

  /** Outside an advertisement, plain tokens are all written, and only the
      depth moves. */
  lemma {:induction false} IntendedPlain(ts: seq<Token>, s: FilterState)
    requires s.loop && Inv(s) && !s.inAd
    requires Plain(ts)
    ensures IntendedRun(ts, s) == s.(depth := s.depth + Depth(ts), out := s.out + RenderAll(ts))
  {
    if |ts| == 0 {
      assert s.(depth := s.depth + 0, out := s.out + "") == s;
    } else {
      var s1 := s.(depth := s.depth + Delta(ts[0]), out := s.out + ts[0].render);
      assert IntendedStep(s, ts[0]) == s1;
      IntendedPlain(ts[1..], s1);
      assert s.out + ts[0].render + RenderAll(ts[1..]) == s.out + RenderAll(ts);
    }
  }

  /** Inside an advertisement opened `r` levels up, a stretch that never
      closes below its depth and holds no nested advertisement or separator
      is skipped whole. */
  lemma {:induction false} IntendedSkipped(ts: seq<Token>, s: FilterState, r: int)
    requires s.loop && s.inAd && s.skip && s.depth == s.adDepth + r
    requires StaysAbove(ts, r) && Plain(ts)
    ensures IntendedRun(ts, s) == s.(depth := s.depth + Depth(ts))
  {
    if |ts| == 0 {
      assert s.(depth := s.depth + 0) == s;
    } else {
      var s1 := s.(depth := s.depth + Delta(ts[0]));
      assert IntendedStep(s, ts[0]) == s1;
      IntendedSkipped(ts[1..], s1, r + Delta(ts[0]));
    }
  }

  /** The advertisement's start tag, its body and its end tag leave no
      trace but nothing else changes. */
  lemma AdBlockSkipped(open: Token, body: seq<Token>, close: Token, s: FilterState)
    requires s.loop && Inv(s) && !s.inAd
    requires IsAdOpen(open) && Balanced(body) && Plain(body) && IsAdEnd(close)
    ensures IntendedRun([open] + body + [close], s) == s
  {
    var d := s.depth + 1;
    var s1 := s.(depth := d, skip := true, adDepth := d, inAd := true);
    assert IntendedStep(s, open) == s1;
    IntendedSkipped(body, s1, 0);
    var s2 := s1.(depth := d + Depth(body));
    assert IntendedStep(s2, close) == s;
    assert IntendedRun([open], s) == s1 by {
      assert [open][1..] == [];
    }
    assert IntendedRun([close], s2) == s by {
      assert [close][1..] == [];
    }
    IntendedAppend([open], body, s);
    IntendedAppend([open] + body, [close], s);
  }

  /** Between plain text, an advertisement block is removed and everything
      else is kept. */
  lemma AdBlockRemoved(pre: seq<Token>, open: Token, body: seq<Token>, close: Token, post: seq<Token>)
    requires Plain(pre) && Plain(post)
    requires IsAdOpen(open) && Balanced(body) && Plain(body) && IsAdEnd(close)
    ensures IntendedChapter(pre + ([open] + body + [close]) + post)
            == RenderAll(pre) + RenderAll(post) + "</div>"
  {
    var ad := [open] + body + [close];
    var s1 := Initial.(depth := Depth(pre), out := RenderAll(pre));
    IntendedPlain(pre, Initial);
    assert IntendedRun(pre, Initial) == s1;
    AdBlockSkipped(open, body, close, s1);
    IntendedPlain(post, s1);
    IntendedAppend(pre, ad, Initial);
    IntendedAppend(pre + ad, post, Initial);
    assert IntendedRun(pre + ad + post, Initial).out == RenderAll(pre) + RenderAll(post);
  }

  /** Plain tokens pass the guarded filter unchanged. */
  lemma PlainKept(ts: seq<Token>)
    requires Plain(ts)
    ensures IntendedChapter(ts) == RenderAll(ts) + "</div>"
  {
    IntendedPlain(ts, Initial);
  }

  /** Where the stream holds no start tag, the guarded filter and the
      filter as written agree. */
  lemma {:induction false} IntendedAgrees(ts: seq<Token>, s: FilterState)
    requires NoStart(ts)
    ensures IntendedRun(ts, s) == FilterRun(ts, s)
  {
    if s.loop && |ts| > 0 {
      IntendedAgrees(ts[1..], FilterStep(s, ts[0]));
    }
  }

  /** No start tag at all. */
  predicate NoStart(ts: seq<Token>)
  {
    |ts| == 0 || (ts[0].kind != StartTag && NoStart(ts[1..]))
  }
}
