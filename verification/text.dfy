/** String operations of the JavaScript runtime that the modelled code relies on,
    stated over `seq<char>`. */
module Text {
  import opened Wrappers

  /** JavaScript's `\s` class: ASCII white space, line terminators and the Unicode space separators. */
  predicate IsWs(c: char) {
    || c == ' ' || c == '\t' || c == '\n' || c == '\r' || c == '\U{B}' || c == '\U{C}'
    || c == '\U{A0}' || c == '\U{1680}' || ('\U{2000}' <= c <= '\U{200A}')
    || c == '\U{2028}' || c == '\U{2029}' || c == '\U{202F}' || c == '\U{205F}'
    || c == '\U{3000}' || c == '\U{FEFF}'
  }

  /** JavaScript's `\w` class. */
  predicate IsWordChar(c: char) {
    ('a' <= c <= 'z') || ('A' <= c <= 'Z') || ('0' <= c <= '9') || c == '_'
  }

  predicate NoWs(s: string) {
    forall i :: 0 <= i < |s| ==> !IsWs(s[i])
  }

  predicate AllWs(s: string) {
    forall i :: 0 <= i < |s| ==> IsWs(s[i])
  }

  predicate StartsWith(s: string, p: string) {
    |p| <= |s| && s[..|p|] == p
  }

  predicate OccursAt(s: string, p: string, i: int) {
    0 <= i && i + |p| <= |s| && s[i..i + |p|] == p
  }

  /** `i` is where `p` occurs in `s` for the first time. */
  predicate FirstOccurrence(s: string, p: string, i: int) {
    OccursAt(s, p, i) && forall j :: 0 <= j < i ==> !OccursAt(s, p, j)
  }

  /** `s.indexOf(p, from)`, with `None` for -1. */
  function IndexOfFrom(s: string, p: string, from: nat): (r: Option<nat>)
    decreases |s| - from
    ensures r.Some? ==> from <= r.value && OccursAt(s, p, r.value)
    ensures r.Some? ==> forall j :: from <= j < r.value ==> !OccursAt(s, p, j)
    ensures r.None? ==> forall j :: from <= j ==> !OccursAt(s, p, j)
  {
    if from + |p| > |s| then None
    else if s[from..from + |p|] == p then Some(from)
    else IndexOfFrom(s, p, from + 1)
  }

  /** Index of the first `c` in `s` at or after `from`. */
  function IndexOfChar(s: string, c: char, from: nat): (r: Option<nat>)
    decreases |s| - from
    ensures r.Some? ==> from <= r.value < |s| && s[r.value] == c
    ensures r.Some? ==> forall j :: from <= j < r.value ==> s[j] != c
    ensures r.None? ==> forall j :: from <= j < |s| ==> s[j] != c
  {
    if from >= |s| then None
    else if s[from] == c then Some(from)
    else IndexOfChar(s, c, from + 1)
  }

  /** `s.replace(p, q)` with a string pattern: only the first occurrence of `p` is replaced. */
  function ReplaceFirst(s: string, p: string, q: string): (r: string)
    ensures (forall j :: !OccursAt(s, p, j)) ==> r == s
    ensures forall i :: FirstOccurrence(s, p, i) ==> r == s[..i] + q + s[i + |p|..]
  {
    match IndexOfFrom(s, p, 0)
    case None => s
    case Some(i) => s[..i] + q + s[i + |p|..]
  }

  /** `c.repeat(n)`. */
  function Repeat(c: char, n: nat): (r: string)
    ensures |r| == n
    ensures forall i :: 0 <= i < n ==> r[i] == c
  {
    seq(n, _ => c)
  }

  /** `s.padEnd(n)`: spaces are appended up to length `n`; a longer string is kept whole. */
  function PadEnd(s: string, n: int): (r: string)
    ensures |r| == if |s| >= n then |s| else n
    ensures r[..|s|] == s
    ensures AllWs(r[|s|..])
  {
    if |s| >= n then s else s + Repeat(' ', n - |s|)
  }

  /** `s` neither starts nor ends with white space. */
  predicate WsFreeEnds(s: string) {
    s == [] || (!IsWs(s[0]) && !IsWs(s[|s| - 1]))
  }

  /** Every character of `s` in `[lo, hi)` is white space. */
  predicate WsBetween(s: string, lo: int, hi: int)
    requires 0 <= lo <= hi <= |s|
  {
    forall i :: lo <= i < hi ==> IsWs(s[i])
  }

  /** `s.trimStart()`. */
  function TrimStart(s: string): (r: string)
    ensures |r| <= |s| && r == s[|s| - |r|..]
    ensures WsBetween(s, 0, |s| - |r|)
    ensures r == [] || !IsWs(r[0])
  {
    if s == [] || !IsWs(s[0]) then s
    else TrimStart(s[1..])
  }

  /** `s.trimEnd()`. */
  function TrimEnd(s: string): (r: string)
    ensures |r| <= |s| && r == s[..|r|]
    ensures WsBetween(s, |r|, |s|)
    ensures r == [] || !IsWs(r[|r| - 1])
  {
    if s == [] || !IsWs(s[|s| - 1]) then s
    else TrimEnd(s[..|s| - 1])
  }

  /** `s.trim()`: the white space at both ends is dropped; it is empty exactly for
      all-white-space strings. */
  function Trim(s: string): (r: string)
    ensures r == [] <==> AllWs(s)
    ensures WsFreeEnds(r)
    ensures OccursAt(s, r, WsLen(s)) && WsBetween(s, 0, WsLen(s)) && WsBetween(s, WsLen(s) + |r|, |s|)
  {
    TrimProps(s);
    TrimEnd(TrimStart(s))
  }

  /** The three facts `Trim` promises, about the composition that computes it. */
  lemma TrimProps(s: string)
    ensures var r := TrimEnd(TrimStart(s));
      && (r == [] <==> AllWs(s))
      && WsFreeEnds(r)
      && OccursAt(s, r, WsLen(s)) && WsBetween(s, 0, WsLen(s)) && WsBetween(s, WsLen(s) + |r|, |s|)
  {
    TrimFrame(s);
    TrimEmpty(s);
    TrimEnds(TrimStart(s));
  }

  /** What `trimEnd` leaves of `trimStart`'s result starts after the leading white
      space, and only white space follows it. */
  lemma TrimFrame(s: string)
    ensures var r := TrimEnd(TrimStart(s));
      && OccursAt(s, r, WsLen(s)) && WsBetween(s, 0, WsLen(s)) && WsBetween(s, WsLen(s) + |r|, |s|)
  {
    var t := TrimStart(s);
    var a := WsLen(s);
    TrimStartWsLen(s);
    assert |t| == |s| - a;
    assert WsBetween(s, 0, a);
    TrimEndFrame(s, t, a);
  }

  /** Trimming the end of a string without leading white space keeps both ends
      free of white space. */
  lemma TrimEnds(t: string)
    requires t == [] || !IsWs(t[0])
    ensures WsFreeEnds(TrimEnd(t))
  {
    var r := TrimEnd(t);
    if r != [] {
      assert r[0] == t[0];
    }
  }

  /** Trimming both ends leaves nothing exactly for an all-white-space string. */
  lemma TrimEmpty(s: string)
    ensures TrimEnd(TrimStart(s)) == [] <==> AllWs(s)
  {
    var t := TrimStart(s);
    var r := TrimEnd(t);
    var a := |s| - |t|;
    assert WsBetween(s, 0, a);
    if r == [] {
      assert WsBetween(t, 0, |t|);
      assert t == [];
    } else {
      TrimEndFrame(s, t, a);
      assert !IsWs(s[a]);
    }
  }

  /** `trimStart` drops exactly the leading white space. */
  lemma {:induction false} TrimStartWsLen(s: string)
    ensures TrimStart(s) == s[WsLen(s)..]
    decreases |s|
  {
    if s != [] && IsWs(s[0]) {
      TrimStartWsLen(s[1..]);
      assert s[1..][WsLen(s[1..])..] == s[1 + WsLen(s[1..])..];
    }
  }

  /** What `trimEnd` leaves of a suffix `t` of `s` sits where `t` starts, and
      only white space follows it. */
  lemma TrimEndFrame(s: string, t: string, a: nat)
    requires a <= |s| && t == s[a..]
    ensures var r := TrimEnd(t);
      OccursAt(s, r, a) && WsBetween(s, a + |r|, |s|) && (r != [] ==> s[a] == r[0])
  {
    var r := TrimEnd(t);
    assert r == t[..|r|];
    assert s[a..a + |r|] == r;
    assert WsBetween(t, |r|, |t|);
    forall i | a + |r| <= i < |s| ensures IsWs(s[i]) {
      assert s[i] == t[i - a];
    }
  }

  /** `trim` is the only piece of `s` framed by white space on both sides that
      is empty or neither starts nor ends with white space. */
  lemma TrimUnique(s: string, a: int, b: int)
    requires 0 <= a <= b <= |s|
    requires WsBetween(s, 0, a) && WsBetween(s, b, |s|)
    requires a == b || (!IsWs(s[a]) && !IsWs(s[b - 1]))
    ensures Trim(s) == s[a..b]
  {
    if a == b {
      TrimBlank(s, a);
    } else {
      TrimFramed(s, a, b);
    }
  }

  lemma TrimBlank(s: string, a: int)
    requires 0 <= a <= |s| && WsBetween(s, 0, a) && WsBetween(s, a, |s|)
    ensures Trim(s) == []
  {
    forall i | 0 <= i < |s| ensures IsWs(s[i]) {
      if i < a {
        assert WsBetween(s, 0, a);
      } else {
        assert WsBetween(s, a, |s|);
      }
    }
    assert AllWs(s);
  }

  lemma TrimFramed(s: string, a: int, b: int)
    requires 0 <= a < b <= |s|
    requires WsBetween(s, 0, a) && WsBetween(s, b, |s|) && !IsWs(s[a]) && !IsWs(s[b - 1])
    ensures Trim(s) == s[a..b]
  {
    var r := Trim(s);
    var c := WsLen(s);
    assert r != [] by {
      assert !AllWs(s) by { assert !IsWs(s[a]); }
    }
    assert !IsWs(r[0]) && !IsWs(r[|r| - 1]);
    assert OccursAt(s, r, c) && WsBetween(s, 0, c) && WsBetween(s, c + |r|, |s|);
    PieceFramed(s, r, c, a, b);
  }

  /** A non-empty piece `r` of `s` at `c`, framed by white space and with non-white
      ends, is `s[a..b]` for any other such frame `[a, b)`. */
  lemma PieceFramed(s: string, r: string, c: int, a: int, b: int)
    requires r != [] && !IsWs(r[0]) && !IsWs(r[|r| - 1])
    requires OccursAt(s, r, c) && WsBetween(s, 0, c) && WsBetween(s, c + |r|, |s|)
    requires 0 <= a < b <= |s|
    requires WsBetween(s, 0, a) && WsBetween(s, b, |s|) && !IsWs(s[a]) && !IsWs(s[b - 1])
    ensures r == s[a..b]
  {
    var d := c + |r|;
    assert s[c..d] == r;
    SliceEnds(s, c, d);
    SameFrame(s, a, b, c, d);
  }

  lemma SliceEnds(s: string, c: int, d: int)
    requires 0 <= c < d <= |s|
    ensures s[c..d][0] == s[c] && s[c..d][d - c - 1] == s[d - 1]
  {
  }

  /** Two pieces of `s`, each framed by white space and with non-white ends, are
      the same piece. */
  lemma SameFrame(s: string, a: int, b: int, c: int, d: int)
    requires 0 <= a < b <= |s| && 0 <= c < d <= |s|
    requires WsBetween(s, 0, a) && WsBetween(s, b, |s|) && !IsWs(s[a]) && !IsWs(s[b - 1])
    requires WsBetween(s, 0, c) && WsBetween(s, d, |s|) && !IsWs(s[c]) && !IsWs(s[d - 1])
    ensures a == c && b == d
  {
  }

  /** Length of the longest prefix of `s` free of white space. */
  function WordLen(s: string): (n: nat)
    ensures n <= |s|
    ensures forall i :: 0 <= i < n ==> !IsWs(s[i])
    ensures n == |s| || IsWs(s[n])
  {
    if s == [] || IsWs(s[0]) then 0
    else
      var n := 1 + WordLen(s[1..]);
      assert forall i :: 1 <= i < n ==> s[i] == s[1..][i - 1];
      n
  }

  /** Length of the longest all-white-space prefix of `s`. */
  function WsLen(s: string): (n: nat)
    ensures n <= |s|
    ensures forall i :: 0 <= i < n ==> IsWs(s[i])
    ensures n == |s| || !IsWs(s[n])
  {
    if s == [] || !IsWs(s[0]) then 0
    else
      var n := 1 + WsLen(s[1..]);
      assert forall i :: 1 <= i < n ==> s[i] == s[1..][i - 1];
      n
  }

  /** `s.split(/\s+/)`: the fields between maximal runs of white space; a leading or
      trailing run yields an empty first or last field. */
  function SplitWs(s: string): (r: seq<string>)
    ensures |r| >= 1
    decreases |s|
  {
    var n := WordLen(s);
    if n == |s| then [s]
    else
      assert s[n..][0] == s[n];
      [s[..n]] + SplitWs(s[n + WsLen(s[n..])..])
  }

  /** Every field of `s.split(/\s+/)` is free of white space. */
  lemma {:induction false} SplitWsFields(s: string)
    ensures forall i :: 0 <= i < |SplitWs(s)| ==> NoWs(SplitWs(s)[i])
    decreases |s|
  {
    var n := WordLen(s);
    if n < |s| {
      var t := s[n..];
      assert t[0] == s[n];
      var rest := s[n + WsLen(t)..];
      SplitWsFields(rest);
      assert NoWs(s[..n]) by {
        forall i | 0 <= i < n ensures !IsWs(s[..n][i]) {
          assert s[..n][i] == s[i];
        }
      }
      SplitWsUnfold(s, rest);
      forall i | 0 <= i < |SplitWs(s)| ensures NoWs(SplitWs(s)[i]) {
        if i > 0 {
          assert SplitWs(s)[i] == SplitWs(rest)[i - 1];
        }
      }
    }
  }

  /** The non-empty strings of `xs`, in order. */
  function NonEmpty(xs: seq<string>): (r: seq<string>)
    ensures |r| <= |xs|
    ensures forall i :: 0 <= i < |r| ==> r[i] != []
  {
    if xs == [] then []
    else (if xs[0] == [] then [] else [xs[0]]) + NonEmpty(xs[1..])
  }

  /** `[x]`, or nothing when `x` is empty. */
  function Word(x: string): seq<string> {
    if x == [] then [] else [x]
  }

  /** The words of `s`: its maximal white-space-free runs, in order. This is the
      reference against which `SplitWs` is read. */
  function Tokens(s: string): seq<string>
    decreases |s|
  {
    if s == [] then []
    else if IsWs(s[0]) then Tokens(s[1..])
    else
      var n := WordLen(s);
      [s[..n]] + Tokens(s[n..])
  }

  lemma NonEmptyCons(x: string, xs: seq<string>)
    ensures NonEmpty([x] + xs) == Word(x) + NonEmpty(xs)
  {
    assert ([x] + xs)[1..] == xs;
  }

  lemma WordLenUnique(s: string, m: nat)
    requires m <= |s|
    requires forall i :: 0 <= i < m ==> !IsWs(s[i])
    requires m == |s| || IsWs(s[m])
    ensures WordLen(s) == m
  {
    var n := WordLen(s);
    assert n == |s| || IsWs(s[n]);
    assert m == |s| || IsWs(s[m]);
  }

  /** A white-space-free string is a single word, or none when empty. */
  lemma TokensOfWord(w: string)
    requires NoWs(w)
    ensures Tokens(w) == Word(w)
  {
    if w != [] {
      assert !IsWs(w[0]);
      WordLenUnique(w, |w|);
      assert w[..|w|] == w && w[|w|..] == [];
    }
  }

  /** A leading run of `k` white-space characters does not change the words. */
  lemma {:induction false} TokensSkip(t: string, k: nat)
    requires k <= |t|
    requires forall i :: 0 <= i < k ==> IsWs(t[i])
    ensures Tokens(t) == Tokens(t[k..])
    decreases k
  {
    if k > 0 {
      var u := t[1..];
      assert forall i :: 0 <= i < k - 1 ==> u[i] == t[i + 1];
      TokensSkip(u, k - 1);
      assert u[k - 1..] == t[k..];
    }
  }

  /** `s.split(/\s+/)` without its empty fields is the words of `s`. */
  lemma {:induction false} SplitWsTokens(s: string)
    ensures NonEmpty(SplitWs(s)) == Tokens(s)
    decreases |s|
  {
    var n := WordLen(s);
    if n == |s| {
      SplitWsWhole(s);
    } else {
      assert s[n..][0] == s[n];
      var rest := s[n + WsLen(s[n..])..];
      SplitWsTokens(rest);
      SplitWsStep(s, rest);
    }
  }

  /** `SplitWsTokens` for a string with no white space. */
  lemma SplitWsWhole(s: string)
    requires WordLen(s) == |s|
    ensures NonEmpty(SplitWs(s)) == Tokens(s)
  {
    assert NoWs(s);
    TokensOfWord(s);
    assert SplitWs(s) == [s];
    NonEmptyCons(s, []);
  }

  /** One step of `SplitWsTokens`: the first field, then the fields of the rest. */
  lemma SplitWsStep(s: string, rest: string)
    requires WordLen(s) < |s|
    requires rest == s[WordLen(s) + WsLen(s[WordLen(s)..])..]
    requires NonEmpty(SplitWs(rest)) == Tokens(rest)
    ensures NonEmpty(SplitWs(s)) == Tokens(s)
  {
    SplitWsFirstField(s, rest);
    TokensAfterFirstWord(s, rest);
  }

  lemma SplitWsFirstField(s: string, rest: string)
    requires WordLen(s) < |s|
    requires rest == s[WordLen(s) + WsLen(s[WordLen(s)..])..]
    ensures NonEmpty(SplitWs(s)) == Word(s[..WordLen(s)]) + NonEmpty(SplitWs(rest))
  {
    SplitWsUnfold(s, rest);
    NonEmptyCons(s[..WordLen(s)], SplitWs(rest));
  }

  lemma SplitWsUnfold(s: string, rest: string)
    requires WordLen(s) < |s|
    requires rest == s[WordLen(s) + WsLen(s[WordLen(s)..])..]
    ensures SplitWs(s) == [s[..WordLen(s)]] + SplitWs(rest)
  {
    var n := WordLen(s);
    var m := WsLen(s[n..]);
    assert rest == s[n + m..];
    SplitWsUnfoldAt(s, n, m);
  }

  lemma SplitWsUnfoldAt(s: string, n: nat, m: nat)
    requires n == WordLen(s) && n < |s| && m == WsLen(s[n..])
    ensures SplitWs(s) == [s[..n]] + SplitWs(s[n + m..])
  {
  }

  lemma TokensAfterFirstWord(s: string, rest: string)
    requires WordLen(s) < |s|
    requires rest == s[WordLen(s) + WsLen(s[WordLen(s)..])..]
    ensures Tokens(s) == Word(s[..WordLen(s)]) + Tokens(rest)
  {
    var n := WordLen(s);
    var t := s[n..];
    assert t[0] == s[n];
    TokensFirstWord(s, n);
    TokensSkip(t, WsLen(t));
    assert rest == t[WsLen(t)..];
  }

  /** The words of `s` are its first word, if any, then the words after it. */
  lemma TokensFirstWord(s: string, n: nat)
    requires n == WordLen(s)
    ensures Tokens(s) == Word(s[..n]) + Tokens(s[n..])
  {
    if n == 0 {
      assert s[..n] == [] && s[n..] == s;
    }
  }

  /** Appending a space ends the first word of `a` no later than `a` does. */
  lemma WordLenJoin(a: string, b: string)
    ensures WordLen(a + " " + b) == WordLen(a)
  {
    var s := a + " " + b;
    var n := WordLen(a);
    assert forall i :: 0 <= i < n ==> !IsWs(s[i]) by {
      forall i | 0 <= i < n ensures !IsWs(s[i]) {
        assert s[i] == a[i];
      }
    }
    assert IsWs(s[n]) by {
      if n == |a| {
        assert s[n] == ' ';
      } else {
        assert s[n] == a[n];
      }
    }
    WordLenUnique(s, n);
  }

  /** Joining two strings with a space concatenates their words. */
  lemma {:induction false} TokensJoin(a: string, b: string)
    ensures Tokens(a + " " + b) == Tokens(a) + Tokens(b)
    decreases |a|
  {
    if a == [] {
      TokensJoinEmpty(b);
    } else if IsWs(a[0]) {
      TokensJoin(a[1..], b);
      TokensJoinWsStep(a, b);
    } else {
      var n := WordLen(a);
      assert n == |a| || IsWs(a[n]);
      TokensJoin(a[n..], b);
      TokensJoinWordStep(a, b);
    }
  }

  lemma TokensJoinEmpty(b: string)
    ensures Tokens([] + " " + b) == Tokens([]) + Tokens(b)
  {
    var s := [] + " " + b;
    assert s[0] == ' ' && s[1..] == b;
  }

  lemma TokensJoinWsStep(a: string, b: string)
    requires a != [] && IsWs(a[0])
    requires Tokens(a[1..] + " " + b) == Tokens(a[1..]) + Tokens(b)
    ensures Tokens(a + " " + b) == Tokens(a) + Tokens(b)
  {
    var s := a + " " + b;
    assert s[0] == a[0];
    assert s[1..] == a[1..] + " " + b;
    assert Tokens(s) == Tokens(s[1..]);
    assert Tokens(a) == Tokens(a[1..]);
  }

  lemma TokensJoinWordStep(a: string, b: string)
    requires a != [] && !IsWs(a[0])
    requires Tokens(a[WordLen(a)..] + " " + b) == Tokens(a[WordLen(a)..]) + Tokens(b)
    ensures Tokens(a + " " + b) == Tokens(a) + Tokens(b)
  {
    TokensJoinFirst(a, b);
    TokensFirstWord(a, WordLen(a));
  }

  /** The first word of `a + " " + b` is that of `a`. */
  lemma TokensJoinFirst(a: string, b: string)
    ensures Tokens(a + " " + b) == Word(a[..WordLen(a)]) + Tokens(a[WordLen(a)..] + " " + b)
  {
    var s := a + " " + b;
    var n := WordLen(a);
    WordLenJoin(a, b);
    assert s[..n] == a[..n];
    assert s[n..] == a[n..] + " " + b;
    TokensFirstWord(s, n);
  }
}
