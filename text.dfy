/** String helpers standing in for the parts of Go's `strings`, `strconv`
    and `path` packages that the modelled code relies on. */
module Text {

  /** `strings.Split(s, string(c))`: the pieces between consecutive
      occurrences of `c`; always at least one piece. */
  function Split(s: string, c: char): (r: seq<string>)
    ensures |r| >= 1
  {
    if |s| == 0 then [""]
    else if s[0] == c then [""] + Split(s[1..], c)
    else
      var rest := Split(s[1..], c);
      [[s[0]] + rest[0]] + rest[1..]
  }

  /** `strings.Join(pieces, string(c))`. */
  function Join(pieces: seq<string>, c: char): string
  {
    if |pieces| == 0 then ""
    else if |pieces| == 1 then pieces[0]
    else pieces[0] + [c] + Join(pieces[1..], c)
  }

  /** Splitting and joining on the same separator gives back the input. */
  lemma {:induction false} JoinSplit(s: string, c: char)
    ensures Join(Split(s, c), c) == s
  {
    if |s| == 0 {
    } else if s[0] == c {
      JoinSplit(s[1..], c);
      var rest := Split(s[1..], c);
      assert Split(s, c) == [""] + rest;
      assert Join(Split(s, c), c) == "" + [c] + Join(rest, c);
      assert s == [c] + s[1..];
    } else {
      JoinSplit(s[1..], c);
      var rest := Split(s[1..], c);
      var r := Split(s, c);
      assert r == [[s[0]] + rest[0]] + rest[1..];
      if |rest| == 1 {
        assert Join(r, c) == [s[0]] + rest[0];
        assert Join(rest, c) == rest[0];
      } else {
        assert r[1..] == rest[1..];
        assert Join(r, c) == [s[0]] + rest[0] + [c] + Join(rest[1..], c);
        assert Join(rest, c) == rest[0] + [c] + Join(rest[1..], c);
      }
      assert s == [s[0]] + s[1..];
    }
  }

  /** No piece produced by `Split` contains the separator. */
  lemma {:induction false} SplitPiecesFree(s: string, c: char)
    ensures forall i :: 0 <= i < |Split(s, c)| ==> c !in Split(s, c)[i]
  {
    if |s| > 0 {
      SplitPiecesFree(s[1..], c);
    }
  }

  /** Without the separator, `Split` yields the input as its only piece. */
  lemma {:induction false} SplitWithoutSeparator(s: string, c: char)
    requires c !in s
    ensures Split(s, c) == [s]
  {
    if |s| > 0 {
      assert c !in s[1..];
      SplitWithoutSeparator(s[1..], c);
      assert [s[0]] + s[1..] == s;
    }
  }

  /** `strings.TrimPrefix`: drops one leading `prefix` when present. */
  function TrimPrefix(s: string, prefix: string): (r: string)
    ensures prefix <= s ==> s == prefix + r
    ensures !(prefix <= s) ==> r == s
  {
    if prefix <= s then s[|prefix|..] else s
  }

  /** `s` ends with `suffix`. */
  predicate EndsWith(s: string, suffix: string)
  {
    |suffix| <= |s| && s[|s| - |suffix|..] == suffix
  }

  lemma EndsWithAppend(a: string, b: string)
    ensures EndsWith(a + b, b)
  {
    assert (a + b)[|a|..] == b;
  }

  /** `strings.TrimSuffix`: drops one trailing `suffix` when present. */
  function TrimSuffix(s: string, suffix: string): (r: string)
    ensures EndsWith(s, suffix) ==> s == r + suffix
    ensures !EndsWith(s, suffix) ==> r == s
  {
    if EndsWith(s, suffix) then s[..|s| - |suffix|] else s
  }

  /** `needle` occurs in `hay` starting at index `i`. */
  predicate OccursAt(hay: string, needle: string, i: int)
  {
    0 <= i <= |hay| - |needle| && hay[i..i + |needle|] == needle
  }

  /** The middle piece of a concatenation occurs right after the first. */
  lemma OccursInMiddle(a: string, b: string, c: string)
    ensures OccursAt(a + b + c, b, |a|)
  {
    assert (a + b + c)[|a|..|a| + |b|] == b;
  }

  /** In `a + b + c + d`, `b` occurs right after `a` and the text ends
      with `d`. */
  lemma Framed(a: string, b: string, c: string, d: string)
    ensures OccursAt(a + b + c + d, b, |a|)
    ensures EndsWith(a + b + c + d, d)
  {
    var r := a + b + c + d;
    assert r[|a|..|a| + |b|] == b;
    assert r[|r| - |d|..] == d;
  }

  /** `needle` occurs somewhere in `hay`. */
  predicate Contains(hay: string, needle: string)
  {
    exists i | 0 <= i <= |hay| :: OccursAt(hay, needle, i)
  }

  // ---------------------------------------------------------------------
  // Decimal rendering (`strconv.Itoa` and `fmt`'s `%d`).

  function DigitChar(d: nat): char
    requires d < 10
  {
    ('0' as int + d) as char
  }

  predicate IsDigit(ch: char)
  {
    '0' <= ch <= '9'
  }

  predicate AllDigits(s: string)
  {
    forall i :: 0 <= i < |s| ==> IsDigit(s[i])
  }

  /** Decimal digits of `n`, most significant first, without leading zeros. */
  function NatDigits(n: nat): (r: string)
    decreases n
  {
    if n < 10 then [DigitChar(n)] else NatDigits(n / 10) + [DigitChar(n % 10)]
  }

  /** The value of a string of decimal digits. */
  function DigitsValue(s: string): nat
    requires AllDigits(s)
  {
    if |s| == 0 then 0
    else DigitsValue(s[..|s| - 1]) * 10 + (s[|s| - 1] as int - '0' as int)
  }

  /** `strconv.Itoa(n)`. */
  function Itoa(n: int): string
  {
    if n < 0 then "-" + NatDigits(-n) else NatDigits(n)
  }

  /** Reading back the digits of `n` gives `n`. */
  lemma {:induction false} NatDigitsRoundTrip(n: nat)
    ensures |NatDigits(n)| >= 1 && AllDigits(NatDigits(n))
    ensures DigitsValue(NatDigits(n)) == n
  {
    if n >= 10 {
      NatDigitsRoundTrip(n / 10);
      var s := NatDigits(n);
      assert s[..|s| - 1] == NatDigits(n / 10);
    }
  }

  /** A printed integer starts with '-' exactly when it is negative, and
      holds nothing but digits after that sign. */
  lemma ItoaShape(a: int)
    ensures |Itoa(a)| >= 1
    ensures Itoa(a)[0] == '-' <==> a < 0
    ensures a < 0 ==> Itoa(a)[1..] == NatDigits(-a)
    ensures a >= 0 ==> Itoa(a) == NatDigits(a)
    ensures forall i :: 0 <= i < |Itoa(a)| ==> Itoa(a)[i] == '-' || IsDigit(Itoa(a)[i])
    ensures '_' !in Itoa(a)
  {
    var m: nat := if a < 0 then -a else a;
    NatDigitsRoundTrip(m);
    var d := NatDigits(m);
    assert IsDigit(d[0]);
    if a < 0 {
      assert Itoa(a) == "-" + d;
      assert forall i :: 1 <= i < |Itoa(a)| ==> Itoa(a)[i] == d[i - 1];
    }
  }

  /** A text cut at a marker character that neither head contains splits
      one way only. */
  lemma MarkerSplit(a1: string, b1: string, a2: string, b2: string, m: char)
    requires m !in a1 && m !in a2 && a1 + [m] + b1 == a2 + [m] + b2
    ensures a1 == a2 && b1 == b2
  {
    var s := a1 + [m] + b1;
    assert s[|a1|] == m && forall i :: 0 <= i < |a1| ==> s[i] == a1[i];
    assert s[|a2|] == m && forall i :: 0 <= i < |a2| ==> s[i] == a2[i];
    assert |a1| == |a2|;
    assert a1 == s[..|a1|] && a2 == s[..|a2|];
    assert b1 == s[|a1| + 1..] && b2 == s[|a2| + 1..];
  }

  /** Distinct natural numbers have distinct digit strings. */
  lemma NatDigitsInjective(a: nat, b: nat)
    requires NatDigits(a) == NatDigits(b)
    ensures a == b
  {
    NatDigitsRoundTrip(a);
    NatDigitsRoundTrip(b);
  }

  /** Distinct integers print differently. */
  lemma ItoaInjective(a: int, b: int)
    requires Itoa(a) == Itoa(b)
    ensures a == b
  {
    ItoaShape(a);
    ItoaShape(b);
    if a < 0 {
      NatDigitsInjective(-a, -b);
    } else {
      NatDigitsInjective(a, b);
    }
  }

  // ---------------------------------------------------------------------
  // `strings.ReplaceAll`.

  /** `strings.ReplaceAll(s, "", repl)`: `repl` before every character and at
      the end. */
  function InsertEverywhere(s: string, repl: string): string
  {
    if |s| == 0 then repl else repl + [s[0]] + InsertEverywhere(s[1..], repl)
  }

  /** `strings.ReplaceAll(s, pat, repl)`: every non-overlapping occurrence of
      `pat`, scanning left to right, becomes `repl`. */
  function ReplaceAll(s: string, pat: string, repl: string): string
    decreases |s|
  {
    if |pat| == 0 then InsertEverywhere(s, repl)
    else if |s| < |pat| then s
    else if s[..|pat|] == pat then repl + ReplaceAll(s[|pat|..], pat, repl)
    else [s[0]] + ReplaceAll(s[1..], pat, repl)
  }

  /** A text that does not contain `pat` is left as it is. */
  lemma {:induction false} ReplaceAllAbsent(s: string, pat: string, repl: string)
    requires |pat| > 0 && !Contains(s, pat)
    ensures ReplaceAll(s, pat, repl) == s
    decreases |s|
  {
    if |s| >= |pat| {
      assert !OccursAt(s, pat, 0);
      assert !Contains(s[1..], pat) by {
        forall i | 0 <= i <= |s[1..]| - |pat|
          ensures !OccursAt(s[1..], pat, i)
        {
          assert !OccursAt(s, pat, i + 1);
          assert s[1..][i..i + |pat|] == s[i + 1..i + 1 + |pat|];
        }
      }
      ReplaceAllAbsent(s[1..], pat, repl);
      assert s == [s[0]] + s[1..];
    }
  }

  /** A text that starts with `pat` and has no other occurrence of it. */
  lemma ReplaceAllHead(pat: string, rest: string, repl: string)
    requires |pat| > 0 && !Contains(rest, pat)
    ensures ReplaceAll(pat + rest, pat, repl) == repl + rest
  {
    var s := pat + rest;
    assert s[..|pat|] == pat && s[|pat|..] == rest;
    ReplaceAllAbsent(rest, pat, repl);
  }

  /** What does not occur in a text does not occur in its tail. */
  lemma AbsentInTail(t: string, pat: string)
    requires |t| > 0 && !Contains(t, pat)
    ensures !Contains(t[1..], pat)
  {
    var u := t[1..];
    forall i | 0 <= i <= |u|
      ensures !OccursAt(u, pat, i)
    {
      assert !OccursAt(t, pat, i + 1);
      if i + |pat| <= |u| {
        assert u[i..i + |pat|] == t[i + 1..i + 1 + |pat|];
      }
    }
  }

  /** A text in which `pat` occurs exactly once, right after `a`: that
      occurrence becomes `repl` and the rest is kept. */
  lemma {:induction false} ReplaceAllOnce(a: string, pat: string, rest: string, repl: string)
    requires |pat| > 0 && !Contains(a + pat[..|pat| - 1], pat) && !Contains(rest, pat)
    ensures ReplaceAll(a + pat + rest, pat, repl) == a + repl + rest
    decreases |a|
  {
    if |a| == 0 {
      assert a + pat + rest == pat + rest;
      ReplaceAllHead(pat, rest, repl);
    } else {
      var s := a + pat + rest;
      OnceStep(a, pat, rest);
      ReplaceAllOnce(a[1..], pat, rest, repl);
      SkipFirst(s, pat, repl);
      calc {
        ReplaceAll(s, pat, repl);
        [a[0]] + ReplaceAll(a[1..] + pat + rest, pat, repl);
        [a[0]] + (a[1..] + repl + rest);
        { assert a == [a[0]] + a[1..]; }
        a + repl + rest;
      }
    }
  }

  /** A text that does not start with `pat` keeps its first character. */
  lemma SkipFirst(s: string, pat: string, repl: string)
    requires |pat| > 0 && |s| >= |pat| && s[..|pat|] != pat
    ensures ReplaceAll(s, pat, repl) == [s[0]] + ReplaceAll(s[1..], pat, repl)
  {
  }

  /** One step of `ReplaceAllOnce`: the text does not start with `pat`, and
      what follows its first character is of the same form. */
  lemma OnceStep(a: string, pat: string, rest: string)
    requires |a| > 0 && |pat| > 0 && !Contains(a + pat[..|pat| - 1], pat)
    ensures var s := a + pat + rest;
            |s| >= |pat| && s[..|pat|] != pat && s[0] == a[0] && s[1..] == a[1..] + pat + rest
    ensures !Contains(a[1..] + pat[..|pat| - 1], pat)
  {
    var s := a + pat + rest;
    var t := a + pat[..|pat| - 1];
    assert s[..|pat|] == t[0..0 + |pat|];
    assert !OccursAt(t, pat, 0);
    assert a[1..] + pat[..|pat| - 1] == t[1..];
    AbsentInTail(t, pat);
    assert s[1..] == a[1..] + pat + rest;
  }

  /** Two replacements in a row on the text `p1 + p2`, where each pattern
      occurs once: `p1` becomes `r1`, then `p2` becomes `r2`. */
  lemma ReplaceBoth(p1: string, p2: string, r1: string, r2: string)
    requires |p1| > 0 && |p2| > 0 && !Contains(p2, p1)
    requires !Contains(r1 + p2[..|p2| - 1], p2)
    ensures ReplaceAll(ReplaceAll(p1 + p2, p1, r1), p2, r2) == r1 + r2
  {
    ReplaceAllHead(p1, p2, r1);
    assert r1 + p2 + "" == r1 + p2;
    ReplaceAllOnce(r1, p2, "", r2);
  }

  // ---------------------------------------------------------------------
  // `path.Base`.

  /** Removes every trailing `c`. */
  function StripTrailing(p: string, c: char): (r: string)
    ensures r <= p
    ensures |r| == 0 || r[|r| - 1] != c
    ensures forall i :: |r| <= i < |p| ==> p[i] == c
  {
    if |p| > 0 && p[|p| - 1] == c then StripTrailing(p[..|p| - 1], c) else p
  }

  /** What follows the last `c` in `p`, or all of `p` when it has none. */
  function AfterLast(p: string, c: char): (r: string)
    ensures c !in r
    ensures EndsWith(p, r)
    ensures c !in p ==> r == p
  {
    if |p| == 0 then p
    else if p[|p| - 1] == c then ""
    else AfterLast(p[..|p| - 1], c) + [p[|p| - 1]]
  }

  /** `path.Base(p)`: "." for the empty path, "/" for a path of slashes only,
      otherwise the last slash-free element after trailing slashes are
      removed. */
  function PathBase(p: string): (r: string)
    ensures r != ""
    ensures r == "/" || '/' !in r
    ensures r == "." <== p == ""
  {
    if p == "" then "."
    else
      var q := StripTrailing(p, '/');
      var b := AfterLast(q, '/');
      if b == "" then "/" else b
  }
}
