/** The string operations the code relies on: `str.lower()`, `str.strip()`,
    `str.split()`, `str.lstrip('/')`, `str.startswith`, SQL `LIKE '%q%'` as a
    substring test, and SQLite's BINARY ordering of text. */
module Text {

  /** Python's `str.isspace()`: the ASCII separators, U+001C..U+001F, NEL,
      NO-BREAK SPACE and the Unicode space separators. */
  predicate IsSpace(c: char) {
    var n := c as int;
    || (9 <= n <= 13) || (28 <= n <= 32) || n == 0x85 || n == 0xA0 || n == 0x1680
    || (0x2000 <= n <= 0x200A) || n == 0x2028 || n == 0x2029 || n == 0x202F
    || n == 0x205F || n == 0x3000
  }

  predicate NoSpace(s: string) {
    forall i :: 0 <= i < |s| ==> !IsSpace(s[i])
  }

  /** ASCII lower-casing, which is what SQLite's LOWER() and LIKE do. */
  function LowerChar(c: char): char {
    if 'A' <= c <= 'Z' then (c as int + 32) as char else c
  }

  function Lower(s: string): (r: string)
    ensures |r| == |s|
    ensures forall i :: 0 <= i < |s| ==> r[i] == LowerChar(s[i])
  {
    seq(|s|, i requires 0 <= i < |s| => LowerChar(s[i]))
  }

  lemma LowerIdempotent(s: string)
    ensures Lower(Lower(s)) == Lower(s)
  {
  }

  /** The number of white-space characters `s` starts with. */
  function LeadingSpaces(s: string): (n: nat)
    ensures n <= |s| && (n == |s| || !IsSpace(s[n]))
    ensures forall i :: 0 <= i < n ==> IsSpace(s[i])
  {
    if s != [] && IsSpace(s[0]) then 1 + LeadingSpaces(s[1..]) else 0
  }

  /** The number of white-space characters `s` ends with. */
  function TrailingSpaces(s: string): (n: nat)
    ensures n <= |s| && (n == |s| || !IsSpace(s[|s| - n - 1]))
    ensures forall i :: |s| - n <= i < |s| ==> IsSpace(s[i])
  {
    if s != [] && IsSpace(s[|s| - 1]) then 1 + TrailingSpaces(s[..|s| - 1]) else 0
  }

  /** `s.lstrip()`. */
  function DropLeadingSpace(s: string): (r: string)
    ensures |r| <= |s| && r == s[|s| - |r|..]
    ensures r == [] || !IsSpace(r[0])
    ensures forall i :: 0 <= i < |s| - |r| ==> IsSpace(s[i])
  {
    s[LeadingSpaces(s)..]
  }

  /** `s.rstrip()`. */
  function DropTrailingSpace(s: string): (r: string)
    ensures |r| <= |s| && r == s[..|r|]
    ensures r == [] || !IsSpace(r[|r| - 1])
    ensures forall i :: |r| <= i < |s| ==> IsSpace(s[i])
  {
    s[..|s| - TrailingSpaces(s)]
  }

  /** Every character of `s` is white space. */
  predicate AllSpace(s: string) {
    forall i :: 0 <= i < |s| ==> IsSpace(s[i])
  }

  /** `s.strip()`: the slice of `s` left when the white space at both ends
      is removed, and no more. */
  function Strip(s: string): (r: string)
    ensures r == [] || (!IsSpace(r[0]) && !IsSpace(r[|r| - 1]))
    ensures exists a :: 0 <= a <= a + |r| <= |s| && r == s[a..a + |r|] && AllSpace(s[..a]) && AllSpace(s[a + |r|..])
  {
    var l := DropLeadingSpace(s);
    var r := DropTrailingSpace(l);
    StripSlice(s, l, r);
    r
  }

  /** The text both strips leave is the slice between two runs of white space. */
  lemma StripSlice(s: string, l: string, r: string)
    requires l == DropLeadingSpace(s) && r == DropTrailingSpace(l)
    ensures var a := |s| - |l|;
      0 <= a <= a + |r| <= |s| && r == s[a..a + |r|] && AllSpace(s[..a]) && AllSpace(s[a + |r|..])
  {
    var a := |s| - |l|;
    assert l == s[a..];
    assert r == l[..|r|];
    assert AllSpace(s[..a]) by {
      forall i | 0 <= i < a ensures IsSpace(s[..a][i]) {
        assert s[..a][i] == s[i];
      }
    }
    var tail := s[a + |r|..];
    forall i | 0 <= i < |tail| ensures IsSpace(tail[i]) {
      assert tail[i] == l[|r| + i];
    }
  }

  /** Length of the longest prefix of `s` free of white space. */
  function WordLength(s: string): (n: nat)
    ensures n <= |s| && NoSpace(s[..n])
    ensures n == |s| || IsSpace(s[n])
  {
    if s == [] || IsSpace(s[0]) then 0
    else
      var n := 1 + WordLength(s[1..]);
      assert s[..n] == [s[0]] + s[1..][..n - 1];
      n
  }

  /** `s` with every white-space character removed. */
  function Squeeze(s: string): string {
    if s == [] then [] else (if IsSpace(s[0]) then [] else [s[0]]) + Squeeze(s[1..])
  }

  lemma {:induction false} SqueezeAppend(a: string, b: string)
    ensures Squeeze(a + b) == Squeeze(a) + Squeeze(b)
  {
    if a == [] {
      assert a + b == b;
    } else {
      assert (a + b)[1..] == a[1..] + b;
      SqueezeAppend(a[1..], b);
    }
  }

  lemma {:induction false} SqueezeSpace(a: string)
    requires AllSpace(a)
    ensures Squeeze(a) == []
  {
    if a != [] {
      SqueezeSpace(a[1..]);
    }
  }

  lemma {:induction false} SqueezeWord(a: string)
    requires NoSpace(a)
    ensures Squeeze(a) == a
  {
    if a != [] {
      SqueezeWord(a[1..]);
      assert a == [a[0]] + a[1..];
    }
  }

  /** The tokens written one after another. */
  function Concat(ts: seq<string>): string {
    if ts == [] then [] else ts[0] + Concat(ts[1..])
  }

  /** Leading white space adds nothing to the squeezed text. */
  lemma SqueezeLead(s: string)
    ensures Squeeze(s) == Squeeze(DropLeadingSpace(s))
  {
    var rest := DropLeadingSpace(s);
    var lead := s[..|s| - |rest|];
    assert s == lead + rest;
    SqueezeAppend(lead, rest);
    SqueezeSpace(lead);
  }

  /** One step of `split()`: the first word, then the tokens of the rest. */
  lemma SplitStep(s: string, n: nat, tokens: seq<string>)
    requires DropLeadingSpace(s) != [] && n == WordLength(DropLeadingSpace(s))
    requires forall t :: t in tokens ==> t != [] && NoSpace(t)
    requires Concat(tokens) == Squeeze(DropLeadingSpace(s)[n..])
    ensures n > 0
    ensures forall t :: t in [DropLeadingSpace(s)[..n]] + tokens ==> t != [] && NoSpace(t)
    ensures Concat([DropLeadingSpace(s)[..n]] + tokens) == Squeeze(s)
  {
    var rest := DropLeadingSpace(s);
    assert !IsSpace(rest[0]);
    var w := rest[..n];
    assert forall t :: t in [w] + tokens ==> t == w || t in tokens;
    WordSqueeze(rest, n);
    ConcatCons(w, tokens);
    SqueezeLead(s);
  }

  /** Squeezing a text is its first word followed by the squeezed rest. */
  lemma WordSqueeze(rest: string, n: nat)
    requires n == WordLength(rest)
    ensures Squeeze(rest) == rest[..n] + Squeeze(rest[n..])
  {
    assert rest == rest[..n] + rest[n..];
    SqueezeAppend(rest[..n], rest[n..]);
    SqueezeWord(rest[..n]);
  }

  lemma ConcatCons(w: string, ts: seq<string>)
    ensures Concat([w] + ts) == w + Concat(ts)
  {
    assert ([w] + ts)[1..] == ts;
  }

  /** `s.split()`: the maximal runs of non-space characters, in order; they
      hold every character of `s` but its white space. */
  function Split(s: string): (tokens: seq<string>)
    ensures forall t :: t in tokens ==> t != [] && NoSpace(t)
    ensures Concat(tokens) == Squeeze(s)
    decreases |s|
  {
    var rest := DropLeadingSpace(s);
    if rest == [] then
      SqueezeLead(s);
      []
    else
      var n := WordLength(rest);
      assert n > 0 by { assert !IsSpace(rest[0]); }
      var tokens := Split(rest[n..]);
      SplitStep(s, n, tokens);
      [rest[..n]] + tokens
  }

  /** The gaps woven between the tokens: gaps[0], ts[0], gaps[1], ...,
      ts[k - 1], gaps[k]. */
  function Weave(gaps: seq<string>, ts: seq<string>): string
    requires |gaps| == |ts| + 1
  {
    if ts == [] then gaps[0] else gaps[0] + ts[0] + Weave(gaps[1..], ts[1..])
  }

  /** `s` is the tokens with white space around them and a non-empty run of
      it between each two. */
  predicate Woven(s: string, gaps: seq<string>, ts: seq<string>) {
    && |gaps| == |ts| + 1
    && (forall i :: 0 <= i < |gaps| ==> AllSpace(gaps[i]))
    && (forall i :: 0 < i < |ts| ==> gaps[i] != [])
    && s == Weave(gaps, ts)
  }

  /** The text after a word starts with white space, or is empty. */
  lemma SplitTail(s: string)
    requires DropLeadingSpace(s) != []
    ensures var rest := DropLeadingSpace(s); var n := WordLength(rest);
      && 0 < n && Split(s) == [rest[..n]] + Split(rest[n..])
      && (Split(rest[n..]) != [] ==> |DropLeadingSpace(rest[n..])| < |rest[n..]|)
  {
    var rest := DropLeadingSpace(s);
    var n := WordLength(rest);
    assert !IsSpace(rest[0]);
    var tail := rest[n..];
    if tail != [] {
      assert IsSpace(tail[0]);
    }
  }

  /** The runs of white space around and between the words of `s`. */
  function Gaps(s: string): (gaps: seq<string>)
    ensures gaps != [] && gaps[0] == s[..|s| - |DropLeadingSpace(s)|]
    decreases |s|
  {
    var rest := DropLeadingSpace(s);
    var lead := s[..|s| - |rest|];
    if rest == [] then [lead]
    else
      var n := WordLength(rest);
      assert n > 0 by { assert !IsSpace(rest[0]); }
      [lead] + Gaps(rest[n..])
  }

  /** The gaps of a text with a word are its leading white space followed
      by the gaps of what follows the word. */
  lemma GapsTail(s: string)
    requires DropLeadingSpace(s) != []
    ensures var rest := DropLeadingSpace(s); var n := WordLength(rest);
      && 0 < n
      && Gaps(s) == [s[..|s| - |rest|]] + Gaps(rest[n..])
  {
    assert !IsSpace(DropLeadingSpace(s)[0]);
  }

  /** Cutting a text at `k` and its remainder at `n` loses nothing. */
  lemma ThreeParts(s: string, k: nat, n: nat)
    requires k + n <= |s|
    ensures s == s[..k] + s[k..][..n] + s[k..][n..]
  {
    var rest := s[k..];
    assert rest == rest[..n] + rest[n..];
    assert s == s[..k] + rest;
  }

  /** `split()` breaks exactly at the white space: the text is its tokens
      separated by runs of white space, with white space allowed at both
      ends. */
  lemma SplitWoven(s: string)
    ensures Woven(s, Gaps(s), Split(s))
  {
    WeaveGaps(s);
    GapsSpace(s);
    GapsApart(s);
  }

  /** One gap more than there are tokens. */
  lemma {:induction false} GapsCount(s: string)
    ensures |Gaps(s)| == |Split(s)| + 1
    decreases |s|
  {
    var rest := DropLeadingSpace(s);
    if rest != [] {
      var tail := rest[WordLength(rest)..];
      GapsTail(s);
      SplitTail(s);
      GapsCount(tail);
    }
  }

  /** Weaving the gaps and the tokens back together gives the text. */
  lemma {:induction false} WeaveGaps(s: string)
    ensures |Gaps(s)| == |Split(s)| + 1 && s == Weave(Gaps(s), Split(s))
    decreases |s|
  {
    GapsCount(s);
    var rest := DropLeadingSpace(s);
    if rest == [] {
      var lead := s[..|s| - |rest|];
      assert lead == s;
      assert Gaps(s) == [lead] && Split(s) == [];
    } else {
      var n := WordLength(rest);
      var lead, w, tail := s[..|s| - |rest|], rest[..n], rest[n..];
      ThreeParts(s, |s| - |rest|, n);
      GapsTail(s);
      SplitTail(s);
      WeaveGaps(tail);
      WeaveCons(lead, w, Gaps(tail), Split(tail));
      calc {
        Weave(Gaps(s), Split(s));
        Weave([lead] + Gaps(tail), [w] + Split(tail));
        lead + w + Weave(Gaps(tail), Split(tail));
        lead + w + tail;
        s;
      }
    }
  }

  lemma WeaveCons(g: string, w: string, gs: seq<string>, ts: seq<string>)
    requires |gs| == |ts| + 1
    ensures Weave([g] + gs, [w] + ts) == g + w + Weave(gs, ts)
  {
    assert ([g] + gs)[1..] == gs && ([w] + ts)[1..] == ts;
  }

  /** Every gap is white space. */
  lemma {:induction false} GapsSpace(s: string)
    ensures forall i :: 0 <= i < |Gaps(s)| ==> AllSpace(Gaps(s)[i])
    decreases |s|
  {
    var rest := DropLeadingSpace(s);
    var lead := s[..|s| - |rest|];
    assert AllSpace(lead);
    if rest != [] {
      var tail := rest[WordLength(rest)..];
      GapsTail(s);
      GapsSpace(tail);
      AllSpaceCons(lead, Gaps(tail));
    }
  }

  lemma AllSpaceCons(g: string, gs: seq<string>)
    requires AllSpace(g) && forall i :: 0 <= i < |gs| ==> AllSpace(gs[i])
    ensures forall i :: 0 <= i < |[g] + gs| ==> AllSpace(([g] + gs)[i])
  {
    forall i | 0 < i < |[g] + gs| ensures AllSpace(([g] + gs)[i]) {
      assert ([g] + gs)[i] == gs[i - 1];
    }
  }

  /** Every gap between two tokens holds some white space. */
  lemma {:induction false} GapsApart(s: string)
    ensures forall i :: 0 < i < |Split(s)| ==> i < |Gaps(s)| && Gaps(s)[i] != []
    decreases |s|
  {
    var rest := DropLeadingSpace(s);
    if rest != [] {
      var tail := rest[WordLength(rest)..];
      GapsTail(s);
      SplitTail(s);
      WeaveGaps(tail);
      GapsApart(tail);
      var gs, ts := Gaps(tail), Split(tail);
      assert ts != [] ==> gs[0] != [];
      GapsApartCons(s[..|s| - |rest|], rest[..WordLength(rest)], gs, ts);
    } else {
      assert Split(s) == [];
    }
  }

  lemma GapsApartCons(g: string, w: string, gs: seq<string>, ts: seq<string>)
    requires |gs| == |ts| + 1 && (ts != [] ==> gs[0] != [])
    requires forall i :: 0 < i < |ts| ==> gs[i] != []
    ensures forall i :: 0 < i < |[w] + ts| ==> ([g] + gs)[i] != []
  {
    forall i | 0 < i < |[w] + ts| ensures ([g] + gs)[i] != [] {
      assert ([g] + gs)[i] == gs[i - 1];
    }
  }

  /** `s.lstrip(c)`: every leading `c` removed. */
  function DropLeading(s: string, c: char): (r: string)
    ensures |r| <= |s| && r == s[|s| - |r|..]
    ensures r == [] || r[0] != c
    ensures forall i :: 0 <= i < |s| - |r| ==> s[i] == c
  {
    if s != [] && s[0] == c then DropLeading(s[1..], c) else s
  }

  /** `s.rstrip(c)`: every trailing `c` removed. */
  function DropTrailing(s: string, c: char): (r: string)
    ensures |r| <= |s| && r == s[..|r|]
    ensures r == [] || r[|r| - 1] != c
    ensures forall i :: |r| <= i < |s| ==> s[i] == c
  {
    if s != [] && s[|s| - 1] == c then DropTrailing(s[..|s| - 1], c) else s
  }

  /** `s.startswith(p)`. */
  predicate StartsWith(s: string, p: string) {
    |p| <= |s| && s[..|p|] == p
  }

  /** `q` occurs in `s` as a contiguous substring. */
  predicate Contains(s: string, q: string) {
    exists i :: 0 <= i <= |s| && q <= s[i..]
  }

  /** SQLite's BINARY collation: code-point order, a proper prefix first. */
  predicate TextLe(a: string, b: string)
    decreases |a|
  {
    if a == [] then true
    else if b == [] then false
    else if a[0] != b[0] then a[0] < b[0]
    else TextLe(a[1..], b[1..])
  }

  lemma {:induction false} TextLeTotal(a: string, b: string)
    ensures TextLe(a, b) || TextLe(b, a)
    decreases |a|
  {
    if a != [] && b != [] && a[0] == b[0] {
      TextLeTotal(a[1..], b[1..]);
    }
  }

  lemma {:induction false} TextLeTransitive(a: string, b: string, c: string)
    requires TextLe(a, b) && TextLe(b, c)
    ensures TextLe(a, c)
    decreases |a|
  {
    if a != [] && b != [] && c != [] && a[0] == b[0] && b[0] == c[0] {
      TextLeTransitive(a[1..], b[1..], c[1..]);
    }
  }

  lemma {:induction false} TextLeAntisymmetric(a: string, b: string)
    requires TextLe(a, b) && TextLe(b, a)
    ensures a == b
    decreases |a|
  {
    if a != [] && b != [] {
      TextLeAntisymmetric(a[1..], b[1..]);
      assert a == [a[0]] + a[1..] && b == [b[0]] + b[1..];
    }
  }
}
