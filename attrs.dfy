/** Attribute predicates: class-list membership, the `HtmlKeyInAttr`
    closure, `HtmlCheckAttrs`, and the Soafp class tests built on them. */
module Attrs {
  import opened Text
  import opened Tokens

  /** `HtmlValueContains(str, value)`: the attribute value `value`, split on
      single spaces, has `str` as one of its pieces.  When `value` has no
      space this is plain equality. */
  function HtmlValueContains(str: string, value: string): (r: bool)
    ensures r <==> str in Split(value, ' ')
    ensures ' ' !in value ==> (r <==> value == str)
  {
    if ' ' in value then str in Split(value, ' ')
    else
      SplitWithoutSeparator(value, ' ');
      value == str
  }

  /** `HtmlKeyInAttr(key, value)`: the predicate that holds of an attribute
      `(k, v)` when `k` is `key` and `v` holds `value` as a space-separated
      piece. */
  function HtmlKeyInAttr(key: string, value: string): (r: (string, string) -> bool)
    ensures forall k, v :: r(k, v) <==> k == key && value in Split(v, ' ')
  {
    (k: string, v: string) => k == key && HtmlValueContains(value, v)
  }

  /** The closure never looks at the value of another key, and otherwise
      tests class-list membership. */
  lemma KeyInAttrMeaning(key: string, value: string, k: string, v: string)
    ensures k != key ==> !HtmlKeyInAttr(key, value)(k, v)
    ensures k == key ==> (HtmlKeyInAttr(key, value)(k, v) <==> value in Split(v, ' '))
    ensures k == key && ' ' !in v ==> (HtmlKeyInAttr(key, value)(k, v) <==> v == value)
  {
  }

  /** Pieces of an attribute value never contain a space, so a target that
      has one is never found. */
  lemma ValueContainsNoSpaceTarget(str: string, value: string)
    requires ' ' in str
    ensures !HtmlValueContains(str, value)
  {
    SplitPiecesFree(value, ' ');
  }

  /** `HtmlCheckAttrs(f, attrs)`: always true for the nil condition;
      otherwise the attributes are scanned in order, stopping at the first one
      that satisfies the condition. */
  function HtmlCheckAttrs(cond: AttrCond, attrs: seq<Attribute>): (r: bool)
    ensures cond.NoCond? ==> r
    ensures cond.Cond? && |attrs| == 0 ==> !r
  {
    if cond.NoCond? then true
    else if |attrs| == 0 then false
    else if cond.f(attrs[0].key, attrs[0].val) then true
    else HtmlCheckAttrs(cond, attrs[1..])
  }

  /** For a condition, `HtmlCheckAttrs` holds exactly when some attribute
      satisfies it. */
  lemma {:induction false} CheckAttrsMeaning(cond: AttrCond, attrs: seq<Attribute>)
    requires cond.Cond?
    ensures HtmlCheckAttrs(cond, attrs)
            <==> exists i :: 0 <= i < |attrs| && cond.f(attrs[i].key, attrs[i].val)
  {
    if |attrs| > 0 && !cond.f(attrs[0].key, attrs[0].val) {
      CheckAttrsMeaning(cond, attrs[1..]);
      assert forall i :: 1 <= i < |attrs| ==> attrs[i] == attrs[1..][i - 1];
    }
  }

  /** A start tag named `tag` that satisfies the condition: the token on which
      the extractors record a match. */
  predicate OpensMatch(t: Token, tag: string, cond: AttrCond)
  {
    t.kind == StartTag && t.name == tag && HtmlCheckAttrs(cond, t.attrs)
  }

  /** A self-closing tag named `tag` that satisfies the condition. */
  predicate SelfMatch(t: Token, tag: string, cond: AttrCond)
  {
    t.kind == SelfClosingTag && t.name == tag && HtmlCheckAttrs(cond, t.attrs)
  }

  /** `SoafpisAd`: the class list holds `code-block`. */
  function SoafpisAd(value: string): (r: bool)
    ensures r <==> "code-block" in Split(value, ' ')
  {
    HtmlValueContains("code-block", value)
  }

  /** `SoafpisEnd`: the class list holds one of the three end-of-chapter
      markers. */
  function SoafpisEnd(value: string): (r: bool)
    ensures r <==> ("wp-block-buttons" in Split(value, ' ')
                    || "sd-like" in Split(value, ' ')
                    || "daddy" in Split(value, ' '))
  {
    HtmlValueContains("wp-block-buttons", value)
      || HtmlValueContains("sd-like", value)
      || HtmlValueContains("daddy", value)
  }

  /** `SoafpisSettingsButton`: the class list holds `pre-bar`. */
  function SoafpisSettingsButton(value: string): (r: bool)
    ensures r <==> "pre-bar" in Split(value, ' ')
  {
    HtmlValueContains("pre-bar", value)
  }

  /** `SoafpisImg`: the class list holds `wp-block-image`. */
  function SoafpisImg(value: string): (r: bool)
    ensures r <==> "wp-block-image" in Split(value, ' ')
  {
    HtmlValueContains("wp-block-image", value)
  }
}
