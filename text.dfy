/**
 * The string primitives the program relies on, restricted to what it needs:
 * `str.lower()`, the substring test `k in p`, `str.strip()`, `str.split()`
 * with no separator, and `", ".join(...)`.  Case mapping covers ASCII only.
 */
module Text {

  /** The characters `str.strip()` and `str.split()` treat as white space here. */
  predicate IsSpace(c: char) {
    c == ' ' || c == '\t' || c == '\n' || c == '\r' || c == '\U{B}' || c == '\U{C}'
    || c == '\U{A0}' || c == '\U{202F}'
  }

  predicate IsUpper(c: char) {
    'A' <= c <= 'Z'
  }

  function LowerChar(c: char): (r: char)
    ensures !IsUpper(r)
    ensures !IsUpper(c) ==> r == c
    ensures IsUpper(c) ==> r as int - c as int == 32
  {
    if IsUpper(c) then (c as int + 32) as char else c
  }

  /** `s.lower()` on ASCII letters. */
  function Lower(s: string): (r: string)
    ensures |r| == |s|
    ensures forall i :: 0 <= i < |s| ==> r[i] == LowerChar(s[i])
  {
    seq(|s|, i requires 0 <= i < |s| => LowerChar(s[i]))
  }

  lemma {:induction false} LowerIdempotent(s: string)
    ensures Lower(Lower(s)) == Lower(s)
  {
  }

  /** Python's `k in p` on strings: `k` occurs in `p` at some position. */
  predicate Contains(p: string, k: string) {
    k <= p || (|p| > 0 && Contains(p[1..], k))
  }

  lemma {:induction false} ContainsAt(p: string, k: string, i: nat)
    requires i + |k| <= |p| && p[i..i + |k|] == k
    ensures Contains(p, k)
  {
    if i > 0 {
      assert p[1..][i - 1..i - 1 + |k|] == p[i..i + |k|];
      ContainsAt(p[1..], k, i - 1);
    }
  }

  /** `Contains` means exactly "occurs at some index". */
  lemma {:induction false} ContainsWitness(p: string, k: string) returns (i: nat)
    requires Contains(p, k)
    ensures i + |k| <= |p| && p[i..i + |k|] == k
  {
    if k <= p {
      i := 0;
    } else {
      var j := ContainsWitness(p[1..], k);
      assert p[1..][j..j + |k|] == p[j + 1..j + 1 + |k|];
      i := j + 1;
    }
  }

  /** An occurrence of `big` in `p` carries every occurrence inside `big` with it. */
  lemma {:induction false} ContainsTransitive(p: string, big: string, k: string)
    requires Contains(p, big) && Contains(big, k)
    ensures Contains(p, k)
  {
    var i := ContainsWitness(p, big);
    var j := ContainsWitness(big, k);
    forall m | 0 <= m < |k|
      ensures p[i + j..i + j + |k|][m] == k[m]
    {
      assert k[m] == big[j + m] == p[i + j + m];
    }
    assert p[i + j..i + j + |k|] == k;
    ContainsAt(p, k, i + j);
  }

  function StripLeft(s: string): (r: string)
    ensures |r| <= |s| && r == s[|s| - |r|..]
    ensures r == [] || !IsSpace(r[0])
    ensures forall i :: 0 <= i < |s| - |r| ==> IsSpace(s[i])
  {
    if s != [] && IsSpace(s[0]) then StripLeft(s[1..]) else s
  }

  function StripRight(s: string): (r: string)
    ensures |r| <= |s| && r == s[..|r|]
    ensures r == [] || !IsSpace(r[|r| - 1])
    ensures forall i :: |r| <= i < |s| ==> IsSpace(s[i])
  {
    if s != [] && IsSpace(s[|s| - 1]) then StripRight(s[..|s| - 1]) else s
  }

  /** `s.strip()`: `s` without its leading and trailing white space. */
  function Strip(s: string): (r: string)
    ensures |r| <= |s|
    ensures r == [] || (!IsSpace(r[0]) && !IsSpace(r[|r| - 1]))
  {
    if s != [] && IsSpace(s[0]) then Strip(s[1..]) else StripRight(s)
  }

  /** Every character of `s` is white space. */
  predicate AllSpace(s: string) {
    forall k :: 0 <= k < |s| ==> IsSpace(s[k])
  }

  /**
   * `s.strip()` is the middle of `s` between white-space-only ends, and it
   * neither starts nor ends with white space.
   */
  lemma {:induction false} StripSlice(s: string)
    ensures var r, i := Strip(s), |s| - |StripLeft(s)|;
      && i + |r| <= |s| && s == s[..i] + r + s[i + |r|..]
      && AllSpace(s[..i]) && AllSpace(s[i + |r|..])
  {
    var t := StripLeft(s);
    var r := StripRight(t);
    StripBothSides(s);
    TrimmedSlice(s, t, r);
  }

  /** A right-trimmed piece of a left-trimmed piece of `s` is its middle, with white space around it. */
  lemma {:induction false} TrimmedSlice(s: string, t: string, r: string)
    requires |t| <= |s| && t == s[|s| - |t|..] && forall k :: 0 <= k < |s| - |t| ==> IsSpace(s[k])
    requires |r| <= |t| && r == t[..|r|] && forall k :: |r| <= k < |t| ==> IsSpace(t[k])
    ensures var i := |s| - |t|;
      && i + |r| <= |s| && s == s[..i] + r + s[i + |r|..]
      && AllSpace(s[..i]) && AllSpace(s[i + |r|..])
  {
    var i := |s| - |t|;
    assert s[i..][..|r|] == s[i..i + |r|];
    assert s == s[..i] + s[i..i + |r|] + s[i + |r|..];
    assert s[i + |r|..] == t[|r|..];
  }

  /** Stripping both ends is stripping the left end, then the right end. */
  lemma {:induction false} StripBothSides(s: string)
    ensures Strip(s) == StripRight(StripLeft(s))
  {
    if s != [] && IsSpace(s[0]) {
      StripBothSides(s[1..]);
    }
  }

  /** The leading run of non-space characters of `s`. */
  function TakeWord(s: string): (w: string)
    ensures w <= s
    ensures forall i :: 0 <= i < |w| ==> !IsSpace(w[i])
    ensures |w| < |s| ==> IsSpace(s[|w|])
  {
    if s == [] || IsSpace(s[0]) then [] else [s[0]] + TakeWord(s[1..])
  }

  predicate IsWord(w: string) {
    w != [] && forall i :: 0 <= i < |w| ==> !IsSpace(w[i])
  }

  /** `s.split()`: the maximal runs of non-space characters, in order. */
  function Words(s: string): (ws: seq<string>)
    ensures forall j :: 0 <= j < |ws| ==> IsWord(ws[j])
    decreases |s|
  {
    var t := StripLeft(s);
    if t == [] then []
    else
      var w := TakeWord(t);
      [w] + Words(t[|w|..])
  }

  /** A word followed by white space or by nothing is the leading word. */
  lemma {:induction false} TakeWordOf(w: string, rest: string)
    requires forall i :: 0 <= i < |w| ==> !IsSpace(w[i])
    requires rest == [] || IsSpace(rest[0])
    ensures TakeWord(w + rest) == w
  {
    if w != [] {
      assert (w + rest)[0] == w[0] && (w + rest)[1..] == w[1..] + rest;
      TakeWordOf(w[1..], rest);
    } else {
      assert w + rest == rest;
    }
  }

  /** Leading white space does not change the words. */
  lemma {:induction false} WordsAfterSpace(c: char, s: string)
    requires IsSpace(c)
    ensures Words([c] + s) == Words(s)
  {
    assert ([c] + s)[1..] == s;
  }

  /** A lone word is split into itself. */
  lemma {:induction false} WordsOfWord(w: string)
    requires IsWord(w)
    ensures Words(w) == [w]
  {
    TakeWordOf(w, []);
    assert w + [] == w;
    assert w[|w|..] == [];
  }

  /** A word, a white-space character, then more text: the word comes first, then the words of the rest. */
  lemma {:induction false} WordsOfWordThenSpace(w: string, c: char, s: string)
    requires IsWord(w) && IsSpace(c)
    ensures Words(w + [c] + s) == [w] + Words(s)
  {
    var x := w + [c] + s;
    assert x == w + ([c] + s);
    TakeWordOf(w, [c] + s);
    assert x[|w|..] == [c] + s;
    WordsAfterSpace(c, s);
  }

  /** The words written one after the other. */
  function Flatten(ws: seq<string>): string {
    if ws == [] then [] else ws[0] + Flatten(ws[1..])
  }

  /** The characters of `s` that are not white space, in order. */
  function NonSpace(s: string): string {
    if s == [] then [] else (if IsSpace(s[0]) then [] else [s[0]]) + NonSpace(s[1..])
  }

  lemma {:induction false} NonSpaceConcat(a: string, b: string)
    ensures NonSpace(a + b) == NonSpace(a) + NonSpace(b)
  {
    if a == [] {
      assert a + b == b;
    } else {
      assert (a + b)[0] == a[0] && (a + b)[1..] == a[1..] + b;
      NonSpaceConcat(a[1..], b);
    }
  }

  lemma {:induction false} NonSpaceOfSpaces(s: string)
    requires AllSpace(s)
    ensures NonSpace(s) == []
  {
    if s != [] {
      assert AllSpace(s[1..]) by { assert forall k :: 0 <= k < |s| - 1 ==> s[1..][k] == s[k + 1]; }
      NonSpaceOfSpaces(s[1..]);
    }
  }

  lemma {:induction false} NonSpaceOfWord(w: string)
    requires forall i :: 0 <= i < |w| ==> !IsSpace(w[i])
    ensures NonSpace(w) == w
  {
    if w != [] {
      assert forall i :: 0 <= i < |w| - 1 ==> w[1..][i] == w[i + 1];
      NonSpaceOfWord(w[1..]);
    }
  }

  /** Splitting loses only white space: the words written together are the non-space characters of `s`. */
  lemma {:induction false} WordsKeepCharacters(s: string)
    ensures Flatten(Words(s)) == NonSpace(s)
    decreases |s|
  {
    var t := StripLeft(s);
    NonSpaceAfterStrip(s);
    if t != [] {
      var w := TakeWord(t);
      NonSpaceAfterWord(t);
      WordsKeepCharacters(t[|w|..]);
      var rest := Words(t[|w|..]);
      assert Words(s) == [w] + rest;
      assert ([w] + rest)[1..] == rest;
    }
  }

  lemma {:induction false} NonSpaceAfterStrip(s: string)
    ensures NonSpace(s) == NonSpace(StripLeft(s))
  {
    var t := StripLeft(s);
    var i := |s| - |t|;
    assert s == s[..i] + t;
    assert AllSpace(s[..i]);
    NonSpaceConcat(s[..i], t);
    NonSpaceOfSpaces(s[..i]);
  }

  lemma {:induction false} NonSpaceAfterWord(t: string)
    ensures NonSpace(t) == TakeWord(t) + NonSpace(t[|TakeWord(t)|..])
  {
    var w := TakeWord(t);
    assert t == w + t[|w|..];
    NonSpaceConcat(w, t[|w|..]);
    NonSpaceOfWord(w);
  }

  /** `sep.join(parts)`. */
  function Join(sep: string, parts: seq<string>): (r: string)
    ensures parts != [] ==> parts[0] <= r
  {
    if parts == [] then []
    else if |parts| == 1 then parts[0]
    else parts[0] + sep + Join(sep, parts[1..])
  }

  /** Joining two non-empty lists is joining each and putting one separator between them. */
  lemma {:induction false} JoinAppend(sep: string, a: seq<string>, b: seq<string>)
    requires a != [] && b != []
    ensures Join(sep, a + b) == Join(sep, a) + sep + Join(sep, b)
  {
    var ab := a + b;
    assert ab[0] == a[0] && |ab| > 1;
    assert Join(sep, ab) == a[0] + sep + Join(sep, ab[1..]);
    if |a| > 1 {
      assert ab[1..] == a[1..] + b;
      JoinAppend(sep, a[1..], b);
      var x, y := Join(sep, a[1..]), Join(sep, b);
      assert a[0] + sep + (x + sep + y) == (a[0] + sep + x) + sep + y;
    } else {
      assert ab[1..] == b;
    }
  }
}
