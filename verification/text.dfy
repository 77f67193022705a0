/** The Python `str` operations the pipeline relies on, over `seq<char>`:
    whitespace classification, `strip()`, `split()` with and without a
    separator, `join`, prefix and substring tests, and ASCII lower-casing. */
module Text {

  /** `c.isspace()`: the characters Python treats as whitespace in `strip()`
      and in argument-less `split()`. */
  predicate IsSpace(c: char) {
    c == ' ' || ('\t' <= c <= '\r') || ('\U{1c}' <= c <= '\U{1f}') ||
    c == '\U{85}' || c == '\U{a0}' || c == '\U{1680}' ||
    ('\U{2000}' <= c <= '\U{200a}') || c == '\U{2028}' || c == '\U{2029}' ||
    c == '\U{202f}' || c == '\U{205f}' || c == '\U{3000}'
  }

  predicate NoSpace(s: string) {
    forall i :: 0 <= i < |s| ==> !IsSpace(s[i])
  }

  predicate AllSpace(s: string) {
    forall i :: 0 <= i < |s| ==> IsSpace(s[i])
  }

  /** `s.lstrip()`: the suffix of `s` after its leading whitespace. */
  function TrimLeft(s: string): (r: string)
    ensures |r| <= |s| && r == s[|s| - |r|..]
    ensures r == [] || !IsSpace(r[0])
    ensures forall j :: 0 <= j < |s| - |r| ==> IsSpace(s[j])
  {
    if s != [] && IsSpace(s[0]) then TrimLeft(s[1..]) else s
  }

  /** `s.rstrip()`: the prefix of `s` before its trailing whitespace. */
  function TrimRight(s: string): (r: string)
    ensures |r| <= |s| && r == s[..|r|]
    ensures r == [] || !IsSpace(r[|r| - 1])
    ensures forall j :: |r| <= j < |s| ==> IsSpace(s[j])
  {
    if s != [] && IsSpace(s[|s| - 1]) then TrimRight(s[..|s| - 1]) else s
  }

  /** Where `Strip(s)` starts inside `s`. */
  function StripStart(s: string): nat {
    |s| - |TrimLeft(s)|
  }

  /** A prefix of a suffix is a slice. */
  lemma SliceOfSuffix<T>(s: seq<T>, p: nat, n: nat)
    requires p + n <= |s|
    ensures s[p..][..n] == s[p..p + n]
  {
  }

  /** `strip()` takes a slice of `s`. */
  lemma StripSlice(s: string)
    ensures var r := TrimRight(TrimLeft(s));
            StripStart(s) + |r| <= |s| && r == s[StripStart(s)..StripStart(s) + |r|]
  {
    var l := TrimLeft(s);
    var r := TrimRight(l);
    SliceOfSuffix(s, |s| - |l|, |r|);
  }

  /** `strip()` gives nothing exactly for whitespace. */
  lemma StripEmpty(s: string)
    ensures TrimRight(TrimLeft(s)) == [] <==> AllSpace(s)
  {
    var l := TrimLeft(s);
    if l != [] {
      assert s[|s| - |l|] == l[0];
      TrimRightKeeps(l, 0);
    }
  }

  /** What `strip()` leaves neither starts nor ends with whitespace. */
  lemma StripEnds(s: string)
    ensures var r := TrimRight(TrimLeft(s));
            r != [] ==> !IsSpace(r[0]) && !IsSpace(r[|r| - 1])
  {
    var l := TrimLeft(s);
    var r := TrimRight(l);
    if r != [] {
      assert r[0] == l[0];
    }
  }

  /** `s.strip()`: `s` without leading and trailing whitespace. */
  function Strip(s: string): (r: string)
    ensures StripStart(s) + |r| <= |s| && r == s[StripStart(s)..StripStart(s) + |r|]
    ensures r == [] <==> AllSpace(s)
    ensures r != [] ==> !IsSpace(r[0]) && !IsSpace(r[|r| - 1])
  {
    StripSlice(s);
    StripEmpty(s);
    StripEnds(s);
    TrimRight(TrimLeft(s))
  }

  /** `strip()` of text that starts with a non-whitespace character only
      trims its end. */
  lemma StripOfNonSpaceStart(s: string)
    requires s != [] && !IsSpace(s[0])
    ensures Strip(s) == TrimRight(s)
  {
    assert TrimLeft(s) == s;
  }

  /** `rstrip()` keeps every character up to the last non-whitespace one. */
  lemma TrimRightKeeps(s: string, i: int)
    requires 0 <= i < |s| && !IsSpace(s[i])
    ensures i < |TrimRight(s)|
  {
  }

  /** Every character of a slice occurs in the whole. */
  lemma SliceWithin(s: string, a: int, b: int)
    requires 0 <= a <= b <= |s|
    ensures forall c :: c in s[a..b] ==> c in s
  {
    forall c | c in s[a..b] ensures c in s {
      var j :| 0 <= j < b - a && s[a..b][j] == c;
      assert s[a + j] == c;
    }
  }

  /** `strip()` only removes characters. */
  lemma StripWithin(s: string)
    ensures forall c :: c in Strip(s) ==> c in s
  {
    var r := Strip(s);
    SliceWithin(s, StripStart(s), StripStart(s) + |r|);
  }

  /** `s.strip() == ''`: a string made only of whitespace. */
  predicate IsBlank(s: string) {
    AllSpace(s)
  }

  lemma BlankIffStripsToEmpty(s: string)
    ensures IsBlank(s) <==> Strip(s) == []
  {
  }

  lemma StripOfStripped(s: string)
    requires s == [] || (!IsSpace(s[0]) && !IsSpace(s[|s| - 1]))
    ensures Strip(s) == s
  {
  }

  lemma StripIdempotent(s: string)
    ensures Strip(Strip(s)) == Strip(s)
  {
    StripOfStripped(Strip(s));
  }

  /** Length of the leading run of non-whitespace characters. */
  function WordEnd(t: string): (k: nat)
    ensures k <= |t| && NoSpace(t[..k]) && (k == |t| || IsSpace(t[k]))
    ensures t != [] && !IsSpace(t[0]) ==> k >= 1
  {
    if t == [] || IsSpace(t[0]) then 0 else 1 + WordEnd(t[1..])
  }

  /** `s.split()`: the maximal runs of non-whitespace characters, in order. */
  function Words(s: string): (ws: seq<string>)
    ensures forall w :: w in ws ==> w != [] && NoSpace(w)
    decreases |s|
  {
    var t := TrimLeft(s);
    if t == [] then []
    else
      var k := WordEnd(t);
      var w := t[..k];
      var rest := Words(t[k..]);
      assert w != [] && NoSpace(w);
      assert forall v :: v in [w] + rest ==> v == w || v in rest;
      [w] + rest
  }

  /** `sep.join(ws)`. */
  function Join(ws: seq<string>, sep: string): string {
    if ws == [] then []
    else if |ws| == 1 then ws[0]
    else ws[0] + sep + Join(ws[1..], sep)
  }

  /** Words that `split()` would return unchanged. */
  ghost predicate AreWords(ws: seq<string>) {
    forall w :: w in ws ==> w != [] && NoSpace(w)
  }

  lemma WordsOfLeadingSpace(x: string)
    ensures Words([' '] + x) == Words(x)
  {
    assert ([' '] + x)[1..] == x;
  }

  /** One step of `Words` for text that starts with a word. */
  lemma WordsStep(s: string)
    requires s != [] && !IsSpace(s[0])
    ensures Words(s) == [s[..WordEnd(s)]] + Words(s[WordEnd(s)..])
  {
    assert TrimLeft(s) == s;
  }

  lemma {:induction false} WordEndOfWordThen(w: string, x: string)
    requires NoSpace(w)
    ensures WordEnd(w + ([' '] + x)) == |w|
  {
    if w != [] {
      assert (w + ([' '] + x))[1..] == w[1..] + ([' '] + x);
      WordEndOfWordThen(w[1..], x);
    }
  }

  lemma {:induction false} WordEndOfWord(w: string)
    requires NoSpace(w)
    ensures WordEnd(w) == |w|
  {
    if w != [] {
      WordEndOfWord(w[1..]);
    }
  }

  /** `split()` of one word followed by a space and more text. */
  lemma WordsOfWordThen(w: string, x: string)
    requires w != [] && NoSpace(w)
    ensures Words(w + ([' '] + x)) == [w] + Words(x)
  {
    var j := w + ([' '] + x);
    assert j[0] == w[0];
    WordsStep(j);
    WordEndOfWordThen(w, x);
    assert j[..|w|] == w;
    assert j[|w|..] == [' '] + x;
    WordsOfLeadingSpace(x);
  }

  /** `split()` of a single word. */
  lemma WordsOfWord(w: string)
    requires w != [] && NoSpace(w)
    ensures Words(w) == [w]
  {
    assert TrimLeft(w) == w;
    WordEndOfWord(w);
    assert w[..|w|] == w;
  }

  /** `" ".join` of two or more words starts with the first word and a
      space. */
  lemma JoinStep(ws: seq<string>)
    requires |ws| >= 2
    ensures Join(ws, " ") == ws[0] + ([' '] + Join(ws[1..], " "))
  {
  }

  /** `split()` undoes `" ".join` on genuine words. */
  lemma {:induction false} WordsOfJoin(ws: seq<string>)
    requires AreWords(ws)
    ensures Words(Join(ws, " ")) == ws
  {
    if |ws| == 1 {
      assert ws[0] in ws;
      WordsOfWord(ws[0]);
    } else if |ws| >= 2 {
      var w, rest := ws[0], ws[1..];
      assert w in ws;
      assert AreWords(rest) by {
        assert forall x :: x in rest ==> x in ws;
      }
      JoinStep(ws);
      WordsOfWordThen(w, Join(rest, " "));
      WordsOfJoin(rest);
      assert ws == [w] + rest;
    }
  }

  /** The shape of `" ".join` on genuine words: it neither starts nor ends with
      whitespace, and every whitespace character in it is a single `' '`
      between two non-whitespace characters. */
  lemma {:induction false} JoinedWordsShape(ws: seq<string>)
    requires AreWords(ws)
    ensures var r := Join(ws, " ");
      (r == [] <==> ws == []) &&
      (r != [] ==> !IsSpace(r[0]) && !IsSpace(r[|r| - 1])) &&
      forall i :: 0 <= i < |r| && IsSpace(r[i]) ==>
        r[i] == ' ' && 0 < i < |r| - 1 && !IsSpace(r[i - 1]) && !IsSpace(r[i + 1])
  {
    if |ws| == 1 {
      assert ws[0] in ws;
    } else if |ws| >= 2 {
      assert forall x :: x in ws[1..] ==> x in ws;
      JoinedWordsShape(ws[1..]);
      var w := ws[0];
      assert w in ws;
      var rest := Join(ws[1..], " ");
      var r := Join(ws, " ");
      assert r == w + [' '] + rest;
      forall i | 0 <= i < |r| && IsSpace(r[i])
        ensures r[i] == ' ' && 0 < i < |r| - 1 && !IsSpace(r[i - 1]) && !IsSpace(r[i + 1])
      {
        if i < |w| {
          assert false;
        } else if i == |w| {
          assert r[i + 1] == rest[0];
          assert r[i - 1] == w[|w| - 1];
        } else {
          assert r[i] == rest[i - |w| - 1];
          var k := i - |w| - 1;
          assert k > 0;
          assert r[i - 1] == rest[k - 1];
          assert r[i + 1] == rest[k + 1];
        }
      }
    }
  }

  /** `c in s`. */
  predicate ContainsChar(s: string, c: char) {
    c in s
  }

  /** Index of the first `c` in `s`, or `|s|` when there is none. */
  function FindChar(s: string, c: char): (k: nat)
    ensures k <= |s| && c !in s[..k] && (k < |s| ==> s[k] == c)
  {
    if s == [] then 0 else if s[0] == c then 0 else 1 + FindChar(s[1..], c)
  }

  lemma FindCharAbsent(s: string, c: char)
    requires c !in s
    ensures FindChar(s, c) == |s|
  {
    assert forall j :: 0 <= j < |s| ==> s[j] != c;
  }

  /** `s.split(c)` for a one-character separator `c`: the pieces contain no
      `c`, and joining them back with `c` gives `s`. */
  function SplitOn(s: string, c: char): (ps: seq<string>)
    ensures |ps| >= 1
    ensures forall i :: 0 <= i < |ps| ==> c !in ps[i]
    decreases |s|
  {
    var k := FindChar(s, c);
    if k == |s| then
      assert s[..k] == s;
      [s]
    else
      var rest := SplitOn(s[k + 1..], c);
      assert forall i :: 1 <= i < |rest| + 1 ==> ([s[..k]] + rest)[i] == rest[i - 1];
      [s[..k]] + rest
  }

  /** One step of `s.split(c)` when `s` holds a `c`. */
  lemma SplitOnStep(s: string, c: char)
    requires FindChar(s, c) < |s|
    ensures SplitOn(s, c) == [s[..FindChar(s, c)]] + SplitOn(s[FindChar(s, c) + 1..], c)
  {
  }

  /** Joining the pieces of `s.split(c)` with `c` gives `s` back. */
  lemma {:induction false} JoinSplitOn(s: string, c: char)
    ensures Join(SplitOn(s, c), [c]) == s
    decreases |s|
  {
    var k := FindChar(s, c);
    if k == |s| {
      assert s[..k] == s;
    } else {
      var tail := s[k + 1..];
      var rest := SplitOn(tail, c);
      var ps := [s[..k]] + rest;
      SplitOnStep(s, c);
      assert ps[1..] == rest;
      assert Join(ps, [c]) == s[..k] + [c] + Join(rest, [c]);
      JoinSplitOn(tail, c);
      assert s == s[..k] + [c] + tail;
    }
  }

  /** The first `c` of `p + q`, when `p` has none, is where `q` starts. */
  lemma {:induction false} FindCharPrefix(p: string, q: string, c: char)
    requires c !in p && q != [] && q[0] == c
    ensures FindChar(p + q, c) == |p|
    decreases |p|
  {
    if p != [] {
      assert (p + q)[1..] == p[1..] + q;
      assert c !in p[1..] by {
        assert forall k :: 0 <= k < |p| - 1 ==> p[1..][k] == p[k + 1];
      }
      FindCharPrefix(p[1..], q, c);
    }
  }

  /** Splitting text joined with a character none of the pieces contain
      gives the pieces back. */
  lemma {:induction false} SplitOnJoin(ws: seq<string>, c: char)
    requires ws != []
    requires forall i :: 0 <= i < |ws| ==> c !in ws[i]
    ensures SplitOn(Join(ws, [c]), c) == ws
    decreases |ws|
  {
    var s := Join(ws, [c]);
    if |ws| == 1 {
      FindCharAbsent(ws[0], c);
    } else {
      var rest := Join(ws[1..], [c]);
      assert |ws| > 1 && ws != [];
      assert s == ws[0] + [c] + rest;
      assert FindChar(s, c) == |ws[0]| by {
        assert s == ws[0] + ([c] + rest);
        FindCharPrefix(ws[0], [c] + rest, c);
      }
      assert s[..|ws[0]|] == ws[0];
      assert s[|ws[0]| + 1..] == rest;
      assert forall i :: 0 <= i < |ws| - 1 ==> ws[1..][i] == ws[i + 1];
      SplitOnJoin(ws[1..], c);
    }
  }

  /** The first `c` is no later than any `c`. */
  lemma {:induction false} FindCharBefore(s: string, c: char, i: nat)
    requires i < |s| && s[i] == c
    ensures FindChar(s, c) <= i
    decreases i
  {
    if s[0] != c {
      FindCharBefore(s[1..], c, i - 1);
    }
  }

  /** Text free of `c` splits into itself. */
  lemma SplitOnAbsent(q: string, c: char)
    requires c !in q
    ensures SplitOn(q, c) == [q]
  {
    FindCharAbsent(q, c);
    assert q[..|q|] == q;
  }

  /** `xs[-1]`. */
  function Last<T>(xs: seq<T>): T
    requires xs != []
  {
    xs[|xs| - 1]
  }

  /** A sequence made of one element and a non-empty rest ends as the rest
      does. */
  lemma LastOfCons<T>(x: T, xs: seq<T>)
    requires xs != []
    ensures Last([x] + xs) == Last(xs)
  {
  }

  /** Past the first `c`, the last piece of `s.split(c)` is the last piece
      of the rest's split. */
  lemma SplitOnLastStep(s: string, c: char)
    requires FindChar(s, c) < |s|
    ensures Last(SplitOn(s, c)) == Last(SplitOn(s[FindChar(s, c) + 1..], c))
  {
    var k := FindChar(s, c);
    LastOfCons(s[..k], SplitOn(s[k + 1..], c));
  }

  /** The last piece of `s.split(c)`, when `s` ends with `c` followed by
      text free of `c`, is that text. */
  lemma {:induction false} SplitOnLastPiece(p: string, q: string, c: char)
    requires c !in q
    ensures Last(SplitOn(p + [c] + q, c)) == q
    decreases |p|
  {
    var s := p + [c] + q;
    var k := FindChar(s, c);
    assert k <= |p| by {
      assert s[|p|] == c;
      FindCharBefore(s, c, |p|);
    }
    SplitOnLastStep(s, c);
    if k == |p| {
      assert s[k + 1..] == q;
      SplitOnAbsent(q, c);
    } else {
      var p' := p[k + 1..];
      assert s[k + 1..] == p' + [c] + q;
      SplitOnLastPiece(p', q, c);
    }
  }

  /** `s.startswith(p)`. */
  predicate StartsWith(s: string, p: string) {
    |p| <= |s| && s[..|p|] == p
  }

  /** Prefixes that begin with different characters exclude each other. */
  lemma PrefixesExclude(s: string, p: string, q: string)
    requires p != [] && q != [] && p[0] != q[0] && StartsWith(s, p)
    ensures !StartsWith(s, q)
  {
    assert s[..|p|][0] == s[0];
    assert |q| <= |s| ==> s[..|q|][0] == s[0];
  }

  /** `sub` occurs in `s` starting at index `i`. */
  predicate OccursAt(s: string, sub: string, i: int) {
    0 <= i <= |s| - |sub| && s[i..i + |sub|] == sub
  }

  /** `sub in s` for strings. */
  predicate Contains(s: string, sub: string) {
    exists i | 0 <= i <= |s| - |sub| :: OccursAt(s, sub, i)
  }

  /** Case-mapping of ASCII letters; other characters are left alone. */
  function LowerChar(c: char): char {
    if 'A' <= c <= 'Z' then (c as int + 32) as char else c
  }

  /** `s.lower()` restricted to ASCII letters. */
  function Lower(s: string): (r: string)
    ensures |r| == |s| && forall i :: 0 <= i < |s| ==> r[i] == LowerChar(s[i])
  {
    if s == [] then [] else [LowerChar(s[0])] + Lower(s[1..])
  }

  /** The Python expression `xs[0] or xs[1] or ... or ""`: the first
      non-empty string, or the empty string when there is none. */
  function FirstNonEmpty(xs: seq<string>): (r: string)
    ensures r == [] <==> forall i :: 0 <= i < |xs| ==> xs[i] == []
    ensures r != [] ==> exists i :: (0 <= i < |xs| && xs[i] == r &&
              forall j :: 0 <= j < i ==> xs[j] == [])
  {
    if xs == [] then []
    else if xs[0] != [] then xs[0]
    else
      var r := FirstNonEmpty(xs[1..]);
      assert forall i :: 1 <= i < |xs| ==> xs[i] == xs[1..][i - 1];
      r
  }

  /** The Python expression `a or b` on strings. */
  function Or(a: string, b: string): (r: string)
    ensures a != [] ==> r == a
    ensures a == [] ==> r == b
  {
    if a != [] then a else b
  }

  /** `c * n`. */
  function Repeat(c: char, n: nat): (r: string)
    ensures |r| == n && forall i :: 0 <= i < n ==> r[i] == c
  {
    if n == 0 then [] else [c] + Repeat(c, n - 1)
  }
}
