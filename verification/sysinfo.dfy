/** The terminal report of __tests__/sysinfo.ts: the width policy, the bordered
    boxes with word-wrapped content, and the merging of boxes side by side into
    rows. The system queries that fill the boxes are not modelled; the sections
    are an input. Widths are counted in code points, and an SGR colour escape
    (ESC, `[`, parameters, `m`) takes no column. */
module SysInfo {
  import opened Wrappers
  import opened Text
  import Seqs

  // ---------------------------------------------------------------------------
  // Colour escapes and the visible width of a line

  const Esc: char := '\U{1B}'
  const Reset: string := [Esc] + "[0m"
  const Cyan: string := [Esc] + "[36m"
  const Green: string := [Esc] + "[32m"
  const Yellow: string := [Esc] + "[33m"
  const Blue: string := [Esc] + "[34m"
  const Magenta: string := [Esc] + "[35m"
  const Red: string := [Esc] + "[31m"

  /** A Select Graphic Rendition escape: ESC, parameters without `m`, then `m`. */
  predicate IsSgr(code: string) {
    |code| >= 2 && code[0] == Esc && code[|code| - 1] == 'm' && 'm' !in code[1..|code| - 1]
  }

  /** What the terminal shows of `s`: every escape, up to and including the first
      `m` after it, is dropped; an escape with no `m` after it swallows the rest. */
  function Strip(s: string): (r: string)
    ensures |r| <= |s|
    decreases |s|
  {
    if s == [] then []
    else if s[0] == Esc then
      match IndexOfChar(s, 'm', 1)
      case None => []
      case Some(k) => Strip(s[k + 1..])
    else [s[0]] + Strip(s[1..])
  }

  /** Every escape in `s` is closed by an `m`. */
  predicate Terminated(s: string)
    decreases |s|
  {
    if s == [] then true
    else if s[0] == Esc then
      match IndexOfChar(s, 'm', 1)
      case None => false
      case Some(k) => Terminated(s[k + 1..])
    else Terminated(s[1..])
  }

  /** The number of columns `s` occupies. */
  function Width(s: string): nat {
    |Strip(s)|
  }

  lemma IndexOfCharPrefix(a: string, b: string, c: char, from: nat)
    requires IndexOfChar(a, c, from).Some?
    ensures IndexOfChar(a + b, c, from) == IndexOfChar(a, c, from)
  {
    var k := IndexOfChar(a, c, from).value;
    assert (a + b)[k] == c;
    assert forall j :: from <= j < k ==> (a + b)[j] == a[j];
  }

  /** A terminated prefix is shown on its own, whatever follows it. */
  lemma {:induction false} StripAppend(a: string, b: string)
    requires Terminated(a)
    ensures Strip(a + b) == Strip(a) + Strip(b)
    ensures Terminated(a + b) == Terminated(b)
    decreases |a|
  {
    if a == [] {
      assert a + b == b;
    } else if a[0] == Esc {
      var k := IndexOfChar(a, 'm', 1).value;
      IndexOfCharPrefix(a, b, 'm', 1);
      assert (a + b)[k + 1..] == a[k + 1..] + b;
      StripAppend(a[k + 1..], b);
    } else {
      assert (a + b)[1..] == a[1..] + b;
      StripAppend(a[1..], b);
    }
  }

  /** Text without escapes is shown as it is. */
  lemma {:induction false} StripPlain(p: string)
    requires Esc !in p
    ensures Strip(p) == p && Terminated(p)
    decreases |p|
  {
    if p != [] {
      assert p[1..] == p[1..];
      assert Esc !in p[1..] by {
        forall c | c in p[1..] ensures c in p { }
      }
      StripPlain(p[1..]);
      assert [p[0]] + p[1..] == p;
    }
  }

  /** A colour escape shows nothing. */
  lemma StripSgr(code: string)
    requires IsSgr(code)
    ensures Strip(code) == [] && Terminated(code)
  {
    var n := |code| - 1;
    assert forall j :: 1 <= j < n ==> code[j] == code[1..n][j - 1];
    assert forall j :: 1 <= j < n ==> code[j] != 'm';
    assert IndexOfChar(code, 'm', 1) == Some(n);
    assert code[n + 1..] == [];
  }

  lemma ResetIsSgr()
    ensures IsSgr(Reset) && |Reset| == 4
  {
    assert Reset[1..3] == "[0";
  }

  /** `code + p + reset + q` shows `p` then `q`. */
  lemma Painted(code: string, p: string, q: string)
    requires IsSgr(code) && Esc !in p && Esc !in q
    ensures Strip(code + p + Reset + q) == p + q
    ensures Terminated(code + p + Reset + q)
  {
    ResetIsSgr();
    Between(code, p, Reset, q);
  }

  /** Text between two escapes shows as if the escapes were not there. */
  lemma Between(open: string, p: string, close: string, q: string)
    requires IsSgr(open) && IsSgr(close) && Esc !in p && Esc !in q
    ensures Strip(open + p + close + q) == p + q
    ensures Terminated(open + p + close + q)
  {
    var op := open + p;
    assert Strip(op) == p && Terminated(op) by {
      StripSgr(open);
      StripPlain(p);
      StripAppend(open, p);
    }
    var opc := op + close;
    assert Strip(opc) == p && Terminated(opc) by {
      StripSgr(close);
      StripAppend(op, close);
      assert p + [] == p;
    }
    StripPlain(q);
    StripAppend(opc, q);
  }

  lemma RepeatPlain(c: char, n: nat)
    requires c != Esc
    ensures Esc !in Repeat(c, n)
  {
  }

  lemma PadEndPlain(s: string, n: int)
    requires Esc !in s
    ensures Esc !in PadEnd(s, n)
  {
    var r := PadEnd(s, n);
    forall i | 0 <= i < |r| ensures r[i] != Esc {
      if i < |s| {
        assert r[i] == r[..|s|][i];
      } else {
        assert r[i] == r[|s|..][i - |s|];
      }
    }
  }

  // ---------------------------------------------------------------------------
  // Word wrapping

  /** The lines already pushed and the line being filled, while the words of one
      text are placed. */
  datatype Fill = Fill(pushed: seq<string>, current: string)

  /** One step of `words.forEach`: a word that would take the current line past
      `limit` (counting the joining space, even on an empty line) pushes that line
      and starts the next; otherwise it is appended, after a space unless the line
      is empty. */
  function Place(f: Fill, word: string, limit: int): Fill {
    if |f.current + " " + word| > limit then Fill(f.pushed + [f.current], word)
    else if f.current != "" then Fill(f.pushed, f.current + " " + word)
    else Fill(f.pushed, word)
  }

  function PlaceAll(f: Fill, words: seq<string>, limit: int): Fill
    decreases |words|
  {
    if words == [] then f else PlaceAll(Place(f, words[0], limit), words[1..], limit)
  }

  /** The words of a list of lines, in order. */
  function Words(lines: seq<string>): seq<string> {
    if lines == [] then [] else Tokens(lines[0]) + Words(lines[1..])
  }

  lemma {:induction false} WordsAppend(a: seq<string>, b: seq<string>)
    ensures Words(a + b) == Words(a) + Words(b)
    decreases |a|
  {
    if a == [] {
      assert a + b == b;
    } else {
      assert (a + b)[1..] == a[1..] + b;
      WordsAppend(a[1..], b);
    }
  }

  lemma WordsSingle(x: string)
    ensures Words([x]) == Tokens(x)
  {
    assert [x][1..] == [];
  }

  /** Placing one word adds exactly that word. */
  lemma PlaceWord(f: Fill, w: string, limit: int)
    requires NoWs(w)
    ensures var g := Place(f, w, limit);
      Words(g.pushed) + Tokens(g.current) == Words(f.pushed) + Tokens(f.current) + Word(w)
  {
    TokensOfWord(w);
    if |f.current + " " + w| > limit {
      WordsAppend(f.pushed, [f.current]);
      WordsSingle(f.current);
    } else if f.current != "" {
      TokensJoin(f.current, w);
    } else {
      assert Tokens("") == [];
    }
  }

  /** Placing words loses none and reorders none. */
  lemma {:induction false} PlaceAllWords(f: Fill, words: seq<string>, limit: int)
    requires forall i :: 0 <= i < |words| ==> NoWs(words[i])
    ensures var g := PlaceAll(f, words, limit);
      Words(g.pushed) + Tokens(g.current) == Words(f.pushed) + Tokens(f.current) + NonEmpty(words)
    decreases |words|
  {
    if words != [] {
      var tail := words[1..];
      assert forall i :: 0 <= i < |tail| ==> NoWs(tail[i]) by {
        forall i | 0 <= i < |tail| ensures NoWs(tail[i]) {
          assert tail[i] == words[i + 1];
        }
      }
      PlaceAllWords(Place(f, words[0], limit), tail, limit);
      PlaceAllStep(f, words, limit);
    }
  }

  /** One step of `PlaceAllWords`: the first word, then the rest. */
  lemma PlaceAllStep(f: Fill, words: seq<string>, limit: int)
    requires words != [] && NoWs(words[0])
    requires var g, h := Place(f, words[0], limit), PlaceAll(Place(f, words[0], limit), words[1..], limit);
      Words(h.pushed) + Tokens(h.current) == Words(g.pushed) + Tokens(g.current) + NonEmpty(words[1..])
    ensures var h := PlaceAll(f, words, limit);
      Words(h.pushed) + Tokens(h.current) == Words(f.pushed) + Tokens(f.current) + NonEmpty(words)
  {
    var w, tail := words[0], words[1..];
    var g := Place(f, w, limit);
    var h := PlaceAll(g, tail, limit);
    assert PlaceAll(f, words, limit) == h;
    var before := Words(f.pushed) + Tokens(f.current);
    assert Words(g.pushed) + Tokens(g.current) == before + Word(w) by {
      PlaceWord(f, w, limit);
    }
    assert NonEmpty(words) == Word(w) + NonEmpty(tail) by {
      assert words == [w] + tail;
      NonEmptyCons(w, tail);
    }
    Regroup(Words(h.pushed) + Tokens(h.current), Words(g.pushed) + Tokens(g.current), before,
            Word(w), NonEmpty(tail), NonEmpty(words));
  }

  lemma Regroup(whole: seq<string>, mid: seq<string>, a: seq<string>, b: seq<string>, c: seq<string>, bc: seq<string>)
    requires whole == mid + c && mid == a + b && bc == b + c
    ensures whole == a + bc
  {
  }

  /** A line fits the limit, is empty, or is a single word of `words`. */
  predicate Fits(line: string, limit: int, words: seq<string>) {
    line == [] || |line| <= limit || line in words
  }

  /** Every line pushed fits, and no line holds an escape that no word holds. */
  lemma {:induction false} PlaceAllFits(f: Fill, words: seq<string>, limit: int, all: seq<string>)
    requires forall w :: w in words ==> w in all && Esc !in w
    requires Fits(f.current, limit, all) && Esc !in f.current
    requires forall l :: l in f.pushed ==> Fits(l, limit, all) && Esc !in l
    ensures var g := PlaceAll(f, words, limit);
      && Fits(g.current, limit, all) && Esc !in g.current
      && forall l :: l in g.pushed ==> Fits(l, limit, all) && Esc !in l
    decreases |words|
  {
    if words != [] {
      var g := Place(f, words[0], limit);
      assert words[0] in words;
      forall w | w in words[1..] ensures w in all && Esc !in w {
        assert w in words;
      }
      PlaceAllFits(g, words[1..], limit, all);
    }
  }

  lemma {:induction false} SplitWsPlain(s: string)
    requires Esc !in s
    ensures forall w :: w in SplitWs(s) ==> Esc !in w
    decreases |s|
  {
    var n := WordLen(s);
    assert forall c :: c in s[..n] ==> c in s;
    if n < |s| {
      var rest := s[n + WsLen(s[n..])..];
      assert forall c :: c in rest ==> c in s;
      SplitWsPlain(rest);
    }
  }

  /** The lines one text is wrapped into at `limit` columns: the words of
      `text.split(/\s+/)` placed in turn, then the unfinished line if non-empty.
      The words are kept in order, every line fits the limit unless it is empty
      or a single over-long word, and the lines carry no escape the text lacks. */
  function Wrap(text: string, limit: int): (r: seq<string>)
    ensures Words(r) == Tokens(text)
    ensures forall l :: l in r ==> Fits(l, limit, SplitWs(text))
    ensures Esc !in text ==> forall l :: l in r ==> Esc !in l
    ensures Greedy(r, limit)
  {
    var words := SplitWs(text);
    var f := PlaceAll(Fill([], ""), words, limit);
    var r := if f.current != "" then f.pushed + [f.current] else f.pushed;
    WrapKeepsWords(text, limit, words, f, r);
    WrapFitsHelper(text, limit, words, f);
    WrapGreedy(text, limit, words, f, r);
    r
  }

  /** A single word that fits is its own one line. */
  lemma WrapOneWord(w: string, limit: int)
    requires w != [] && NoWs(w) && |w| + 1 <= limit
    ensures SplitWs(w) == [w] && Wrap(w, limit) == [w]
  {
    assert WordLen(w) == |w|;
    assert PlaceAll(Fill([], ""), [w], limit) == PlaceAll(Fill([], w), [], limit);
  }

  lemma WrapKeepsWords(text: string, limit: int, words: seq<string>, f: Fill, r: seq<string>)
    requires words == SplitWs(text) && f == PlaceAll(Fill([], ""), words, limit)
    requires r == if f.current != "" then f.pushed + [f.current] else f.pushed
    ensures Words(r) == Tokens(text)
  {
    SplitWsFields(text);
    PlaceAllWords(Fill([], ""), words, limit);
    SplitWsTokens(text);
    assert Words([]) == [];
    assert Words(f.pushed) + Tokens(f.current) == NonEmpty(words);
    WordsAppend(f.pushed, [f.current]);
    WordsSingle(f.current);
    if f.current == "" {
      assert Words(f.pushed) + [] == Words(f.pushed);
    }
  }

  lemma WrapFitsHelper(text: string, limit: int, words: seq<string>, f: Fill)
    requires words == SplitWs(text) && f == PlaceAll(Fill([], ""), words, limit)
    ensures forall l :: l in f.pushed + [f.current] ==> Fits(l, limit, words)
    ensures Esc !in text ==> forall l :: l in f.pushed + [f.current] ==> Esc !in l
  {
    if Esc !in text {
      SplitWsPlain(text);
      PlaceAllFits(Fill([], ""), words, limit, words);
    } else {
      var clean := Fill([], "");
      PlaceAllFitsOnly(clean, words, limit, words);
    }
  }

  lemma {:induction false} PlaceAllFitsOnly(f: Fill, words: seq<string>, limit: int, all: seq<string>)
    requires forall w :: w in words ==> w in all
    requires Fits(f.current, limit, all)
    requires forall l :: l in f.pushed ==> Fits(l, limit, all)
    ensures var g := PlaceAll(f, words, limit);
      Fits(g.current, limit, all) && forall l :: l in g.pushed ==> Fits(l, limit, all)
    decreases |words|
  {
    if words != [] {
      var g := Place(f, words[0], limit);
      assert words[0] in words;
      forall w | w in words[1..] ensures w in all {
        assert w in words;
      }
      PlaceAllFitsOnly(g, words[1..], limit, all);
    }
  }

  /** The length of the first word of a line, 0 for a line without words. */
  function LeadLen(line: string): nat {
    if Tokens(line) == [] then 0 else |Tokens(line)[0]|
  }

  /** No line could have taken the first word of the line after it: the two
      joined by a space would pass `limit`. */
  predicate Greedy(lines: seq<string>, limit: int) {
    forall i :: 0 <= i < |lines| - 1 ==> |lines[i]| + 1 + LeadLen(lines[i + 1]) > limit
  }

  /** While the words are placed: the pushed lines are greedy, the last of them
      could not have taken the current line's first word, and a non-empty
      current line has a word. */
  predicate GreedyFill(f: Fill, limit: int) {
    && Greedy(f.pushed, limit)
    && (f.pushed != [] ==> |f.pushed[|f.pushed| - 1]| + 1 + LeadLen(f.current) > limit)
    && (f.current == "" || Tokens(f.current) != [])
  }

  /** Pushing `last` onto greedy lines whose final line could not take its first
      word keeps them greedy. */
  lemma GreedyPush(lines: seq<string>, last: string, limit: int)
    requires Greedy(lines, limit)
    requires lines != [] ==> |lines[|lines| - 1]| + 1 + LeadLen(last) > limit
    ensures Greedy(lines + [last], limit)
  {
    var p := lines + [last];
    forall i | 0 <= i < |p| - 1 ensures |p[i]| + 1 + LeadLen(p[i + 1]) > limit {
      if i < |lines| - 1 {
        assert p[i] == lines[i] && p[i + 1] == lines[i + 1];
      } else {
        assert p[i] == lines[|lines| - 1] && p[i + 1] == last;
      }
    }
  }

  /** Placing a word keeps the greedy invariant. */
  lemma PlaceGreedy(f: Fill, w: string, limit: int)
    requires NoWs(w) && GreedyFill(f, limit)
    ensures GreedyFill(Place(f, w, limit), limit)
  {
    TokensOfWord(w);
    if |f.current + " " + w| > limit {
      GreedyPush(f.pushed, f.current, limit);
      assert |f.current + " " + w| == |f.current| + 1 + |w|;
    } else if f.current != "" {
      TokensJoin(f.current, w);
      assert (Tokens(f.current) + Tokens(w))[0] == Tokens(f.current)[0];
    } else {
      assert Tokens(f.current) == [];
    }
  }

  lemma {:induction false} PlaceAllGreedy(f: Fill, words: seq<string>, limit: int)
    requires forall i :: 0 <= i < |words| ==> NoWs(words[i])
    requires GreedyFill(f, limit)
    ensures GreedyFill(PlaceAll(f, words, limit), limit)
    decreases |words|
  {
    if words != [] {
      PlaceGreedy(f, words[0], limit);
      var tail := words[1..];
      forall i | 0 <= i < |tail| ensures NoWs(tail[i]) {
        assert tail[i] == words[i + 1];
      }
      PlaceAllGreedy(Place(f, words[0], limit), tail, limit);
    }
  }

  lemma WrapGreedy(text: string, limit: int, words: seq<string>, f: Fill, r: seq<string>)
    requires words == SplitWs(text) && f == PlaceAll(Fill([], ""), words, limit)
    requires r == if f.current != "" then f.pushed + [f.current] else f.pushed
    ensures Greedy(r, limit)
  {
    SplitWsFields(text);
    PlaceAllGreedy(Fill([], ""), words, limit);
    if f.current != "" {
      GreedyPush(f.pushed, f.current, limit);
    }
  }

  /** `content.forEach`: the wrapped lines of every text, in order. */
  function ContentLines(content: seq<string>, limit: int): seq<string> {
    if content == [] then [] else Wrap(content[0], limit) + ContentLines(content[1..], limit)
  }

  /** Wrapping a box's content loses and reorders no word. */
  lemma {:induction false} ContentKeepsWords(content: seq<string>, limit: int)
    ensures Words(ContentLines(content, limit)) == Words(content)
    decreases |content|
  {
    if content != [] {
      WordsAppend(Wrap(content[0], limit), ContentLines(content[1..], limit));
      ContentKeepsWords(content[1..], limit);
    }
  }

  // ---------------------------------------------------------------------------
  // Boxes

  const Horizontal: char := '\U{2500}'
  const Vertical: char := '\U{2502}'
  const TopLeft: char := '\U{256D}'
  const TopRight: char := '\U{256E}'
  const TeeLeft: char := '\U{251C}'
  const TeeRight: char := '\U{2524}'
  const BottomLeft: char := '\U{2570}'
  const BottomRight: char := '\U{256F}'
  const BoxPadding: nat := 2

  /** A horizontal border `inner` columns wide between two corner characters. */
  function Border(color: string, left: char, right: char, inner: nat): string {
    color + [left] + Repeat(Horizontal, inner) + [right] + Reset
  }

  /** A text line: a left border, the padding, the text padded to the inner width
      less the padding, and a right border after the colour reset. */
  function TextRow(color: string, text: string, inner: nat): string {
    color + [Vertical] + Repeat(' ', BoxPadding) + PadEnd(text, inner - BoxPadding) + Reset + [Vertical]
  }

  lemma BorderShape(color: string, left: char, right: char, inner: nat)
    requires IsSgr(color) && left != Esc && right != Esc
    ensures Terminated(Border(color, left, right, inner))
    ensures Width(Border(color, left, right, inner)) == inner + 2
    ensures |Border(color, left, right, inner)| == |color| + inner + 2 + |Reset|
  {
    var p := [left] + Repeat(Horizontal, inner) + [right];
    RepeatPlain(Horizontal, inner);
    assert Border(color, left, right, inner) == color + p + Reset + "";
    Painted(color, p, "");
    ResetIsSgr();
  }

  lemma TextRowShape(color: string, text: string, inner: nat)
    requires IsSgr(color) && Esc !in text
    ensures Terminated(TextRow(color, text, inner))
    ensures Width(TextRow(color, text, inner)) == 4 + Seqs.Max(|text|, inner - BoxPadding)
  {
    var p := [Vertical] + Repeat(' ', BoxPadding) + PadEnd(text, inner - BoxPadding);
    RepeatPlain(' ', BoxPadding);
    PadEndPlain(text, inner - BoxPadding);
    assert TextRow(color, text, inner) == color + p + Reset + [Vertical];
    Painted(color, p, [Vertical]);
  }

  /** Every line is terminated and shows exactly `width` columns. */
  predicate Rectangular(box: seq<string>, width: int) {
    forall i :: 0 <= i < |box| ==> Terminated(box[i]) && Width(box[i]) == width
  }

  /** The text has no escape and none of its words is wider than the box's text area. */
  predicate TextFits(text: string, width: int) {
    Esc !in text && forall w :: w in SplitWs(text) ==> |w| <= width - 4
  }

  /** The title and every word of the content fit inside a box `width` wide. */
  predicate BoxFits(title: string, content: seq<string>, width: int) {
    && Esc !in title && |title| <= width - 4
    && forall i :: 0 <= i < |content| ==> TextFits(content[i], width)
  }

  lemma {:induction false} ContentFits(content: seq<string>, width: int)
    requires width >= 4
    requires forall i :: 0 <= i < |content| ==> TextFits(content[i], width)
    ensures forall l :: l in ContentLines(content, width - 6) ==> Esc !in l && |l| <= width - 4
    decreases |content|
  {
    if content != [] {
      var words := SplitWs(content[0]);
      forall l | l in Wrap(content[0], width - 6) ensures Esc !in l && |l| <= width - 4 {
        assert Fits(l, width - 6, words);
      }
      ContentFits(content[1..], width);
    }
  }

  /** The text rows of the wrapped lines. */
  function Rows(color: string, lines: seq<string>, inner: nat): (r: seq<string>)
    ensures |r| == |lines|
    ensures forall j :: 0 <= j < |lines| ==> r[j] == TextRow(color, lines[j], inner)
  {
    seq(|lines|, j requires 0 <= j < |lines| => TextRow(color, lines[j], inner))
  }

  /** `createBox`: a top border, the title row, a separator, the wrapped content
      rows and a bottom border, all in `color`. A width below 2 makes
      `String.prototype.repeat` throw. */
  function CreateBox(title: string, color: string, content: seq<string>, width: int): (r: Option<seq<string>>)
    ensures r.None? <==> width < 2
    ensures r.Some? ==> |r.value| == 4 + |ContentLines(content, width - 6)|
    ensures r.Some? ==> r.value[3..|r.value| - 1] == Rows(color, ContentLines(content, width - 6), width - 2)
    ensures r.Some? ==>
      && r.value[0] == Border(color, TopLeft, TopRight, width - 2)
      && r.value[1] == TextRow(color, title, width - 2)
      && r.value[2] == Border(color, TeeLeft, TeeRight, width - 2)
      && r.value[|r.value| - 1] == Border(color, BottomLeft, BottomRight, width - 2)
  {
    if width < 2 then None
    else
      var inner := width - 2;
      var head := [Border(color, TopLeft, TopRight, inner), TextRow(color, title, inner),
                   Border(color, TeeLeft, TeeRight, inner)];
      var rows := Rows(color, ContentLines(content, width - 6), inner);
      var bottom := Border(color, BottomLeft, BottomRight, inner);
      Framed(head, rows, bottom);
      FramedEnds(head, rows, bottom);
      Some(head + rows + [bottom])
  }

  /** The middle of `head + rows + [last]` is `rows`. */
  lemma Framed<T>(head: seq<T>, rows: seq<T>, last: T)
    ensures |head + rows + [last]| == |head| + |rows| + 1
    ensures (head + rows + [last])[|head|..|head| + |rows|] == rows
  {
  }

  /** The first three lines of `head + rows + [last]` are `head`, and its last is `last`. */
  lemma FramedEnds<T>(head: seq<T>, rows: seq<T>, last: T)
    requires |head| == 3
    ensures var box := head + rows + [last];
      box[0] == head[0] && box[1] == head[1] && box[2] == head[2] && box[|box| - 1] == last
  {
  }

  /** When the title and every word fit, the box is a rectangle `width` columns
      wide; its top line is longer than that by the escapes it carries. */
  lemma BoxIsRectangular(title: string, color: string, content: seq<string>, width: int)
    requires IsSgr(color) && BoxFits(title, content, width)
    ensures CreateBox(title, color, content, width).Some?
    ensures var box := CreateBox(title, color, content, width).value;
      Rectangular(box, width) && |box[0]| == |color| + width + |Reset|
  {
    var inner := width - 2;
    var rows := Rows(color, ContentLines(content, width - 6), inner);
    var box := [Border(color, TopLeft, TopRight, inner), TextRow(color, title, inner),
                Border(color, TeeLeft, TeeRight, inner)]
               + rows + [Border(color, BottomLeft, BottomRight, inner)];
    assert CreateBox(title, color, content, width) == Some(box);
    assert Rectangular(rows, width) by {
      ContentFits(content, width);
      RowsShape(color, ContentLines(content, width - 6), width);
    }
    BoxShape(title, color, width, rows, box);
  }

  lemma BoxShape(title: string, color: string, width: int, rows: seq<string>, box: seq<string>)
    requires width >= 4 && IsSgr(color) && Esc !in title && |title| <= width - 4
    requires box == [Border(color, TopLeft, TopRight, width - 2), TextRow(color, title, width - 2),
                     Border(color, TeeLeft, TeeRight, width - 2)]
                    + rows + [Border(color, BottomLeft, BottomRight, width - 2)]
    requires Rectangular(rows, width)
    ensures Rectangular(box, width) && |box[0]| == |color| + width + |Reset|
  {
    var inner := width - 2;
    var top, sep, bottom := Border(color, TopLeft, TopRight, inner), Border(color, TeeLeft, TeeRight, inner),
                            Border(color, BottomLeft, BottomRight, inner);
    var title' := TextRow(color, title, inner);
    assert Rectangular([top, title', sep], width) && |top| == |color| + width + |Reset| by {
      BorderShape(color, TopLeft, TopRight, inner);
      BorderShape(color, TeeLeft, TeeRight, inner);
      TextRowShape(color, title, inner);
    }
    assert Rectangular([bottom], width) by {
      BorderShape(color, BottomLeft, BottomRight, inner);
    }
    Stack(top, title', sep, rows, bottom, width);
  }

  lemma RowsShape(color: string, lines: seq<string>, width: int)
    requires width >= 4 && IsSgr(color)
    requires forall l :: l in lines ==> Esc !in l && |l| <= width - 4
    ensures Rectangular(Rows(color, lines, width - 2), width)
  {
    var rows := Rows(color, lines, width - 2);
    forall j | 0 <= j < |rows| ensures Terminated(rows[j]) && Width(rows[j]) == width {
      assert lines[j] in lines;
      TextRowShape(color, lines[j], width - 2);
    }
  }

  /** A rectangle stacked from rectangular parts. */
  lemma Stack(top: string, title: string, sep: string, rows: seq<string>, bottom: string, width: int)
    requires Rectangular([top, title, sep], width) && Rectangular(rows, width) && Rectangular([bottom], width)
    ensures Rectangular([top, title, sep] + rows + [bottom], width)
  {
    var box := [top, title, sep] + rows + [bottom];
    forall i | 0 <= i < |box| ensures Terminated(box[i]) && Width(box[i]) == width {
      if i < 3 {
        assert box[i] == [top, title, sep][i];
      } else if i < |box| - 1 {
        assert box[i] == rows[i - 3];
      } else {
        assert box[i] == bottom;
      }
    }
  }

  // ---------------------------------------------------------------------------
  // Merging boxes side by side

  /** `Math.max(...boxes.map(box => box.length))`, as many rows as the loop makes. */
  function MaxHeight(boxes: seq<seq<string>>): (h: nat)
    ensures forall j :: 0 <= j < |boxes| ==> |boxes[j]| <= h
    ensures h == 0 || exists j :: 0 <= j < |boxes| && |boxes[j]| == h
  {
    if boxes == [] then 0
    else
      var rest := MaxHeight(boxes[1..]);
      assert forall j :: 1 <= j < |boxes| ==> boxes[j] == boxes[1..][j - 1];
      if |boxes[0]| >= rest then |boxes[0]| else rest
  }

  /** `box[i] || ' '.repeat(fill)`: the box's line, or blanks once the box has ended. */
  function Cell(box: seq<string>, i: nat, fill: nat): string {
    if i < |box| && box[i] != "" then box[i] else Repeat(' ', fill)
  }

  /** Line `i` of a row: each box's cell followed by `spacing` blanks, with the
      filler for an ended box as long as `measure` says its first line is. */
  function Line(boxes: seq<seq<string>>, i: nat, spacing: nat, measure: string -> nat): string
    requires forall j :: 0 <= j < |boxes| ==> boxes[j] != []
  {
    if boxes == [] then ""
    else Cell(boxes[0], i, measure(boxes[0][0])) + Repeat(' ', spacing) + Line(boxes[1..], i, spacing, measure)
  }

  /** The merging loop, parameterised by how the filler width is measured. Reading
      the first line of an empty box throws once there is any row to make. */
  function MergeWith(boxes: seq<seq<string>>, spacing: nat, measure: string -> nat): (r: Option<seq<string>>)
    ensures r.None? <==> MaxHeight(boxes) > 0 && exists j :: 0 <= j < |boxes| && boxes[j] == []
    ensures r.Some? ==> |r.value| == MaxHeight(boxes)
    ensures r.Some? ==> forall i :: 0 <= i < |r.value| ==> r.value[i] == Line(boxes, i, spacing, measure)
  {
    var h := MaxHeight(boxes);
    if h == 0 then Some([])
    else if exists j :: 0 <= j < |boxes| && boxes[j] == [] then None
    else Some(seq(h, i requires 0 <= i < h => Line(boxes, i, spacing, measure)))
  }

  /** `s.length`: every code point counts, escapes included. */
  function Length(s: string): nat {
    |s|
  }

  /** `mergeBoxesHorizontally` as written: an ended box is filled with as many
      blanks as its first line has code points, escapes included. */
  function MergeAsWritten(boxes: seq<seq<string>>, spacing: nat): (r: Option<seq<string>>)
    ensures r.None? <==> MaxHeight(boxes) > 0 && exists j :: 0 <= j < |boxes| && boxes[j] == []
    ensures r.Some? ==> |r.value| == MaxHeight(boxes)
    ensures r.Some? ==> forall i :: 0 <= i < |r.value| ==> r.value[i] == Line(boxes, i, spacing, Length)
  {
    MergeWith(boxes, spacing, Length)
  }

  /** A box of at least one line whose lines are all terminated and as wide as the first. */
  predicate Uniform(box: seq<string>) {
    |box| > 0 && forall i :: 0 <= i < |box| ==> Terminated(box[i]) && Width(box[i]) == Width(box[0])
  }

  /** The columns of a full row: every box's width plus its trailing gap. */
  function RowWidth(boxes: seq<seq<string>>, spacing: nat): nat
    requires forall j :: 0 <= j < |boxes| ==> boxes[j] != []
  {
    if boxes == [] then 0 else Width(boxes[0][0]) + spacing + RowWidth(boxes[1..], spacing)
  }

  lemma {:induction false} LineWidth(boxes: seq<seq<string>>, i: nat, spacing: nat)
    requires forall j :: 0 <= j < |boxes| ==> boxes[j] != [] && Uniform(boxes[j])
    ensures Terminated(Line(boxes, i, spacing, Width))
    ensures Width(Line(boxes, i, spacing, Width)) == RowWidth(boxes, spacing)
    decreases |boxes|
  {
    if boxes != [] {
      var b := boxes[0];
      var cell := Cell(b, i, Width(b[0]));
      var gap := Repeat(' ', spacing);
      var rest := Line(boxes[1..], i, spacing, Width);
      assert Line(boxes, i, spacing, Width) == cell + gap + rest;
      CellShape(b, i);
      BlanksShape(spacing);
      LineWidth(boxes[1..], i, spacing);
      JoinShape(cell, gap, rest);
    }
  }

  /** The cell of a uniform box is as wide as the box, blanks included. */
  lemma CellShape(b: seq<string>, i: nat)
    requires Uniform(b)
    ensures Terminated(Cell(b, i, Width(b[0]))) && Width(Cell(b, i, Width(b[0]))) == Width(b[0])
  {
    if !(i < |b| && b[i] != "") {
      BlanksShape(Width(b[0]));
    }
  }

  lemma BlanksShape(n: nat)
    ensures Terminated(Repeat(' ', n)) && Width(Repeat(' ', n)) == n
  {
    RepeatPlain(' ', n);
    StripPlain(Repeat(' ', n));
  }

  /** Terminated pieces joined show their widths added up. */
  lemma JoinShape(a: string, b: string, c: string)
    requires Terminated(a) && Terminated(b) && Terminated(c)
    ensures Terminated(a + b + c) && Width(a + b + c) == Width(a) + Width(b) + Width(c)
  {
    StripAppend(a, b);
    StripAppend(a + b, c);
  }

  /** `mergeBoxesHorizontally` with the filler as wide as the box shows: when every
      box is uniform, every merged line is exactly as wide as a full row. */
  function Merge(boxes: seq<seq<string>>, spacing: nat): (r: Option<seq<string>>)
    ensures r.None? <==> MaxHeight(boxes) > 0 && exists j :: 0 <= j < |boxes| && boxes[j] == []
    ensures r.Some? ==> |r.value| == MaxHeight(boxes)
    ensures r.Some? && (forall j :: 0 <= j < |boxes| ==> Uniform(boxes[j])) ==>
      forall i :: 0 <= i < |r.value| ==> Terminated(r.value[i]) && Width(r.value[i]) == RowWidth(boxes, spacing)
  {
    var r := MergeWith(boxes, spacing, Width);
    if forall j :: 0 <= j < |boxes| ==> Uniform(boxes[j]) then
      assert forall i :: 0 <= i < |r.value| ==> r.value[i] == Line(boxes, i, spacing, Width);
      forall i: nat | i < |r.value| ensures Terminated(r.value[i]) && Width(r.value[i]) == RowWidth(boxes, spacing) {
        LineWidth(boxes, i, spacing);
      }
      r
    else r
  }

  lemma {:induction false} LineOfLiveBoxes(boxes: seq<seq<string>>, i: nat, spacing: nat, m1: string -> nat, m2: string -> nat)
    requires forall j :: 0 <= j < |boxes| ==> i < |boxes[j]| && boxes[j][i] != ""
    ensures Line(boxes, i, spacing, m1) == Line(boxes, i, spacing, m2)
    decreases |boxes|
  {
    if boxes != [] {
      LineOfLiveBoxes(boxes[1..], i, spacing, m1, m2);
    }
  }

  /** As written, a line below the end of a shorter left box is wider than the
      same line merged with the visible width: by the escapes in the shorter box's
      first line. The box to its right is pushed that many columns off its border. */
  lemma ShortBoxShifts(a: seq<string>, b: seq<string>, spacing: nat, i: nat)
    requires Uniform(a) && Uniform(b) && |a| <= i < |b| && b[i] != ""
    ensures MergeAsWritten([a, b], spacing).Some? && Merge([a, b], spacing).Some?
    ensures i < |Merge([a, b], spacing).value|
    ensures Width(MergeAsWritten([a, b], spacing).value[i])
         == Width(Merge([a, b], spacing).value[i]) + |a[0]| - Width(a[0])
    ensures Width(Merge([a, b], spacing).value[i]) == Width(Merge([a, b], spacing).value[0])
  {
    var boxes := [a, b];
    assert MaxHeight(boxes) == |b|;
    assert boxes[1..] == [b];
    AsWrittenLineWidth(a, b, spacing, i);
    LineWidth(boxes, i, spacing);
    LineWidth(boxes, 0, spacing);
  }

  /** Below the end of `a`, the as-written line is a filler `|a[0]|` blanks wide,
      the gap, and the line of `b`. */
  lemma AsWrittenLineWidth(a: seq<string>, b: seq<string>, spacing: nat, i: nat)
    requires Uniform(a) && Uniform(b) && |a| <= i < |b| && b[i] != ""
    ensures Width(Line([a, b], i, spacing, Length)) == |a[0]| + spacing + RowWidth([b], spacing)
  {
    var filler, gap := Repeat(' ', |a[0]|), Repeat(' ', spacing);
    var rest := Line([b], i, spacing, Length);
    assert [a, b][1..] == [b];
    assert Line([a, b], i, spacing, Length) == filler + gap + rest;
    LineOfLiveBoxes([b], i, spacing, Length, Width);
    LineWidth([b], i, spacing);
    BlanksShape(|a[0]|);
    BlanksShape(spacing);
    JoinShape(filler, gap, rest);
  }

  /** A box beside a taller one, both made by `createBox` in an SGR colour: as
      written, the rows below the shorter left box are `|color| + 4` columns too
      wide. */
  lemma TallerNeighbourShifts(t1: string, c1: seq<string>, t2: string, c2: seq<string>,
                              color: string, width: int, spacing: nat, i: nat)
    requires IsSgr(color) && BoxFits(t1, c1, width) && BoxFits(t2, c2, width)
    requires 4 + |ContentLines(c1, width - 6)| <= i < 4 + |ContentLines(c2, width - 6)|
    ensures CreateBox(t1, color, c1, width).Some? && CreateBox(t2, color, c2, width).Some?
    ensures
      var boxes := [CreateBox(t1, color, c1, width).value, CreateBox(t2, color, c2, width).value];
      && MergeAsWritten(boxes, spacing).Some? && i < |MergeAsWritten(boxes, spacing).value|
      && Width(MergeAsWritten(boxes, spacing).value[i]) == 2 * (width + spacing) + |color| + |Reset|
  {
    BoxIsRectangular(t1, color, c1, width);
    BoxIsRectangular(t2, color, c2, width);
    assert width >= 4;
    RectanglesShift(CreateBox(t1, color, c1, width).value, CreateBox(t2, color, c2, width).value,
                    color, width, spacing, i);
  }

  lemma RectanglesShift(a: seq<string>, b: seq<string>, color: string, width: nat, spacing: nat, i: nat)
    requires Rectangular(a, width) && Rectangular(b, width) && 0 < |a| <= i < |b|
    requires |a[0]| == |color| + width + |Reset| && width > 0
    ensures MergeAsWritten([a, b], spacing).Some? && i < |MergeAsWritten([a, b], spacing).value|
    ensures Width(MergeAsWritten([a, b], spacing).value[i]) == 2 * (width + spacing) + |color| + |Reset|
  {
    assert Uniform(a) && Uniform(b);
    assert b[i] != "" by {
      assert Width(b[i]) == width;
    }
    ShortBoxShifts(a, b, spacing, i);
    RowWidthOfBoxes([a, b], spacing, width);
  }

  // ---------------------------------------------------------------------------
  // Terminal width and the layout of rows

  const DefaultColumns: nat := 80
  const Spacing: nat := 2

  /** `process.stdout.columns || 80`: an unknown or zero column count means 80. */
  function TerminalWidth(columns: Option<nat>): nat {
    match columns
    case Some(c) => if c != 0 then c else DefaultColumns
    case None => DefaultColumns
  }

  /** Boxes per row: four beyond 160 columns, three beyond 120, two beyond 80. */
  function BoxesPerRow(w: int): (n: nat)
    ensures 1 <= n <= 4
  {
    if w > 160 then 4 else if w > 120 then 3 else if w > 80 then 2 else 1
  }

  /** `Math.floor((w - spacing * (n - 1)) / n)`. */
  function BoxWidth(w: int): int {
    var n := BoxesPerRow(w);
    (w - Spacing * (n - 1)) / n
  }

  /** The boxes of a row and the gaps between them fit the terminal with less than
      one column per box to spare; a row with its trailing gap is at most `Spacing`
      columns wider than the terminal. Up to 80 columns one box takes the whole
      width; beyond that a box is at least 38 wide. */
  lemma Layout(columns: Option<nat>)
    ensures var w := TerminalWidth(columns);
      var n, b := BoxesPerRow(w), BoxWidth(w);
      && w > 0
      && n * b + Spacing * (n - 1) <= w < n * (b + 1) + Spacing * (n - 1)
      && n * (b + Spacing) <= w + Spacing
      && (w <= 80 ==> n == 1 && b == w)
      && (w > 80 ==> b >= 38)
  {
    var w := TerminalWidth(columns);
    var n := BoxesPerRow(w);
    var q := w - Spacing * (n - 1);
    assert q == n * (q / n) + q % n && 0 <= q % n < n;
  }

  /** `sections.slice(i, i + n)` for `i = 0, n, 2n, ...`. */
  function Chunks<T>(xs: seq<T>, n: nat): (r: seq<seq<T>>)
    requires n > 0
    ensures Seqs.Flatten(r) == xs
    ensures forall k :: 0 <= k < |r| ==> 0 < |r[k]| <= n
    ensures forall k :: 0 <= k < |r| - 1 ==> |r[k]| == n
    decreases |xs|
  {
    if xs == [] then []
    else if |xs| <= n then [xs]
    else
      var rest := Chunks(xs[n..], n);
      assert ([xs[..n]] + rest)[1..] == rest;
      assert xs[..n] + xs[n..] == xs;
      [xs[..n]] + rest
  }

  datatype Section = Section(title: string, color: string, content: seq<string>)

  /** The boxes of one row, or `None` once a box cannot be made. */
  function RowBoxes(row: seq<Section>, width: int): (r: Option<seq<seq<string>>>)
    ensures r.None? <==> row != [] && width < 2
    ensures r.Some? ==> |r.value| == |row|
    ensures r.Some? ==> forall k :: 0 <= k < |row| ==>
      Some(r.value[k]) == CreateBox(row[k].title, row[k].color, row[k].content, width)
  {
    if row == [] then Some([])
    else
      match CreateBox(row[0].title, row[0].color, row[0].content, width)
      case None => None
      case Some(box) =>
        match RowBoxes(row[1..], width)
        case None => None
        case Some(rest) =>
          assert forall k :: 1 <= k < |row| ==> row[k] == row[1..][k - 1];
          Some([box] + rest)
  }

  /** Every section of the row has an SGR colour and fits a box `width` wide. */
  predicate RowFits(row: seq<Section>, width: int) {
    forall s :: s in row ==> IsSgr(s.color) && BoxFits(s.title, s.content, width)
  }

  lemma {:induction false} RowWidthOfBoxes(boxes: seq<seq<string>>, spacing: nat, width: nat)
    requires forall j :: 0 <= j < |boxes| ==> boxes[j] != [] && Width(boxes[j][0]) == width
    ensures RowWidth(boxes, spacing) == |boxes| * (width + spacing)
    decreases |boxes|
  {
    if boxes != [] {
      RowWidthOfBoxes(boxes[1..], spacing, width);
      var k := width + spacing;
      assert |boxes| * k == (|boxes| - 1) * k + k;
    }
  }

  /** `console.log(mergedRow.join('\n'))` then `console.log()`. */
  function Printed(merged: seq<string>): seq<string> {
    (if merged == [] then [""] else merged) + [""]
  }

  lemma RowBoxesTall(row: seq<Section>, width: int)
    requires row == [] || width >= 2
    ensures RowBoxes(row, width).Some?
    ensures var boxes := RowBoxes(row, width).value;
      forall j :: 0 <= j < |boxes| ==> |boxes[j]| >= 4
  {
  }

  /** A section that fits gives a uniform box `width` columns wide. */
  lemma SectionBox(s: Section, width: int, box: seq<string>)
    requires IsSgr(s.color) && BoxFits(s.title, s.content, width)
    requires Some(box) == CreateBox(s.title, s.color, s.content, width)
    ensures |box| >= 4 && Uniform(box) && Width(box[0]) == width
  {
    BoxIsRectangular(s.title, s.color, s.content, width);
  }

  /** The boxes of a fitting row are uniform and `width` columns wide. */
  lemma RowBoxesUniform(row: seq<Section>, width: int)
    requires row != [] && RowFits(row, width)
    ensures width >= 4 && RowBoxes(row, width).Some?
    ensures var boxes := RowBoxes(row, width).value;
      && |boxes| == |row|
      && forall j :: 0 <= j < |boxes| ==> |boxes[j]| >= 4 && Uniform(boxes[j]) && Width(boxes[j][0]) == width
  {
    assert width >= 4 by {
      assert row[0] in row;
    }
    var boxes := RowBoxes(row, width).value;
    forall j | 0 <= j < |boxes| ensures |boxes[j]| >= 4 && Uniform(boxes[j]) && Width(boxes[j][0]) == width {
      assert row[j] in row;
      SectionBox(row[j], width, boxes[j]);
    }
  }

  /** Uniform boxes of one width merge into lines all `|boxes| * (width + spacing)` wide. */
  lemma MergeAligned(boxes: seq<seq<string>>, width: nat)
    requires boxes != []
    requires forall j :: 0 <= j < |boxes| ==> |boxes[j]| >= 4 && Uniform(boxes[j]) && Width(boxes[j][0]) == width
    ensures Merge(boxes, Spacing).Some?
    ensures var m := Merge(boxes, Spacing).value;
      && |m| >= 4
      && forall i :: 0 <= i < |m| ==> Terminated(m[i]) && Width(m[i]) == |boxes| * (width + Spacing)
  {
    RowWidthOfBoxes(boxes, Spacing, width);
    assert MaxHeight(boxes) >= |boxes[0]|;
  }

  /** With every section fitting, every merged line of a row is exactly
      `|row| * (width + Spacing)` columns wide. */
  lemma RowAligned(row: seq<Section>, width: int)
    requires row != [] && RowFits(row, width)
    ensures width >= 4 && RowBoxes(row, width).Some? && Merge(RowBoxes(row, width).value, Spacing).Some?
    ensures var m := Merge(RowBoxes(row, width).value, Spacing).value;
      && |m| >= 4
      && forall i :: 0 <= i < |m| ==> Terminated(m[i]) && Width(m[i]) == |row| * (width + Spacing)
  {
    RowBoxesUniform(row, width);
    MergeAligned(RowBoxes(row, width).value, width);
  }

  /** A row printed: its merged lines, then a blank line; a box that cannot be
      made ends the report. The filler of an ended box is as wide as `measure`
      says the box's first line is: `Length` in the program as written, `Width`
      in the corrected one. */
  function PrintRow(row: seq<Section>, width: int, measure: string -> nat): (r: Option<seq<string>>)
    ensures r.None? <==> row != [] && width < 2
    ensures r.Some? ==> |r.value| > 0 && r.value[|r.value| - 1] == ""
    ensures r.Some? && row == [] ==> r.value == ["", ""]
    ensures r.Some? && row != [] ==>
      && RowBoxes(row, width).Some? && MergeWith(RowBoxes(row, width).value, Spacing, measure).Some?
      && r.value == MergeWith(RowBoxes(row, width).value, Spacing, measure).value + [""]
  {
    if row != [] && width < 2 then None
    else
      RowBoxesTall(row, width);
      Some(Printed(MergeWith(RowBoxes(row, width).value, Spacing, measure).value))
  }

  /** Corrected, with every section fitting, every printed line of a row but the
      closing blank one is a full row, `|row| * (width + Spacing)` columns wide. */
  lemma PrintRowAligned(row: seq<Section>, width: int)
    requires row != [] && RowFits(row, width)
    ensures PrintRow(row, width, Width).Some?
    ensures var lines := PrintRow(row, width, Width).value;
      && |lines| >= 5 && lines[|lines| - 1] == ""
      && forall i :: 0 <= i < |lines| - 1 ==> Terminated(lines[i]) && Width(lines[i]) == |row| * (width + Spacing)
  {
    RowAligned(row, width);
    var m := Merge(RowBoxes(row, width).value, Spacing).value;
    assert PrintRow(row, width, Width) == Some(Printed(m));
    PrintedLines(m, |row| * (width + Spacing));
  }

  lemma PrintedLines(m: seq<string>, bound: int)
    requires |m| >= 4 && forall i :: 0 <= i < |m| ==> Terminated(m[i]) && Width(m[i]) == bound
    ensures var lines := Printed(m);
      && |lines| >= 5 && lines[|lines| - 1] == ""
      && forall i :: 0 <= i < |lines| - 1 ==> Terminated(lines[i]) && Width(lines[i]) == bound
  {
    assert Printed(m) == m + [""];
  }

  /** Failing to build a box: `repeat` throws a `RangeError`, which the outer
      handler reports instead of the report. */
  datatype Failure = BoxTooNarrow

  /** Every row holds between one and `n` sections, each fitting a box `width` wide. */
  predicate RowsFit(rows: seq<seq<Section>>, width: int, n: nat) {
    forall k :: 0 <= k < |rows| ==> 0 < |rows[k]| <= n && RowFits(rows[k], width)
  }

  /** Every line is blank or terminated and at most `bound` columns wide. */
  predicate LinesFit(lines: seq<string>, bound: int) {
    forall i :: 0 <= i < |lines| ==> lines[i] == "" || (Terminated(lines[i]) && Width(lines[i]) <= bound)
  }

  lemma LinesFitAppend(a: seq<string>, b: seq<string>, bound: int)
    requires LinesFit(a, bound) && LinesFit(b, bound)
    ensures LinesFit(a + b, bound)
  {
    forall i | 0 <= i < |a + b| ensures (a + b)[i] == "" || (Terminated((a + b)[i]) && Width((a + b)[i]) <= bound) {
      if i < |a| {
        assert (a + b)[i] == a[i];
      } else {
        assert (a + b)[i] == b[i - |a|];
      }
    }
  }

  lemma MulMono(a: nat, b: nat, c: nat)
    requires a <= b
    ensures a * c <= b * c
  {
  }

  /** The rows printed in turn; the first box that cannot be made ends the report. */
  function PrintRows(rows: seq<seq<Section>>, width: int, measure: string -> nat): (r: Result<seq<string>, Failure>)
    ensures r.Err? <==> Seqs.Flatten(rows) != [] && width < 2
    decreases |rows|
  {
    if rows == [] then Ok([])
    else
      match PrintRow(rows[0], width, measure)
      case None => Err(BoxTooNarrow)
      case Some(lines) =>
        match PrintRows(rows[1..], width, measure)
        case Err(e) => Err(e)
        case Ok(rest) => Ok(lines + rest)
  }

  lemma PrintRowsCons(rows: seq<seq<Section>>, width: int, measure: string -> nat)
    requires rows != [] && PrintRows(rows, width, measure).Ok?
    ensures PrintRow(rows[0], width, measure).Some? && PrintRows(rows[1..], width, measure).Ok?
    ensures PrintRows(rows, width, measure).value
         == PrintRow(rows[0], width, measure).value + PrintRows(rows[1..], width, measure).value
  {
  }

  lemma RowsFitTail(rows: seq<seq<Section>>, width: int, n: nat)
    requires rows != [] && RowsFit(rows, width, n)
    ensures 0 < |rows[0]| <= n && RowFits(rows[0], width) && RowsFit(rows[1..], width, n)
  {
    forall k | 0 <= k < |rows[1..]| ensures 0 < |rows[1..][k]| <= n && RowFits(rows[1..][k], width) {
      assert rows[1..][k] == rows[k + 1];
    }
  }

  /** Corrected, with every section fitting, every printed line is blank or a row
      of at most `n` boxes. */
  lemma {:induction false} PrintRowsFit(rows: seq<seq<Section>>, width: int, n: nat)
    requires RowsFit(rows, width, n)
    ensures PrintRows(rows, width, Width).Ok? ==> LinesFit(PrintRows(rows, width, Width).value, n * (width + Spacing))
    decreases |rows|
  {
    if rows != [] && PrintRows(rows, width, Width).Ok? {
      PrintRowsCons(rows, width, Width);
      RowsFitTail(rows, width, n);
      PrintRowsFit(rows[1..], width, n);
      RowLinesFit(rows[0], width, n);
      LinesFitAppend(PrintRow(rows[0], width, Width).value, PrintRows(rows[1..], width, Width).value,
                     n * (width + Spacing));
    }
  }

  lemma RowLinesFit(row: seq<Section>, width: int, n: nat)
    requires 0 < |row| <= n && RowFits(row, width)
    ensures PrintRow(row, width, Width).Some?
    ensures LinesFit(PrintRow(row, width, Width).value, n * (width + Spacing))
  {
    PrintRowAligned(row, width);
    var lines := PrintRow(row, width, Width).value;
    var a, b := |row| * (width + Spacing), n * (width + Spacing);
    assert a <= b by {
      assert width >= 4 by {
        assert row[0] in row;
      }
      MulMono(|row|, n, width + Spacing);
    }
    AlignedLinesFit(lines, a, b);
  }

  /** Lines that are all `a` columns wide but the closing blank one fit any bound `b >= a`. */
  lemma AlignedLinesFit(lines: seq<string>, a: int, b: int)
    requires lines != [] && lines[|lines| - 1] == "" && a <= b
    requires forall i :: 0 <= i < |lines| - 1 ==> Terminated(lines[i]) && Width(lines[i]) == a
    ensures LinesFit(lines, b)
  {
  }

  /** `printSystemInfo` with the filler measured by `measure`: the sections laid
      out in rows of `BoxesPerRow` boxes each `BoxWidth` wide. The report fails
      exactly when the terminal reports a single column and there is something to
      show. */
  function Report(columns: Option<nat>, sections: seq<Section>, measure: string -> nat): (r: Result<seq<string>, Failure>)
    ensures r.Err? <==> sections != [] && columns == Some(1)
  {
    var w := TerminalWidth(columns);
    Layout(columns);
    assert BoxWidth(w) < 2 <==> columns == Some(1);
    PrintRows(Chunks(sections, BoxesPerRow(w)), BoxWidth(w), measure)
  }

  /** The report with the corrected merge: when every section fits, every line is
      blank or a full row of boxes, and no row is wider than the terminal plus one
      gap. */
  function PrintSystemInfoIntended(columns: Option<nat>, sections: seq<Section>): (r: Result<seq<string>, Failure>)
    ensures r.Err? <==> sections != [] && columns == Some(1)
    ensures r.Ok? && RowFits(sections, BoxWidth(TerminalWidth(columns))) ==>
      LinesFit(r.value, TerminalWidth(columns) + Spacing)
  {
    var w := TerminalWidth(columns);
    var n, b := BoxesPerRow(w), BoxWidth(w);
    var r := Report(columns, sections, Width);
    if r.Ok? && RowFits(sections, b) then
      Layout(columns);
      var rows := Chunks(sections, n);
      assert RowsFit(rows, b, n) by {
        ChunksFit(sections, n, b);
      }
      PrintRowsFit(rows, b, n);
      r
    else r
  }

  /** Every row's sections wrap to equally many lines, so its boxes are equally tall. */
  predicate Level(row: seq<Section>, width: int) {
    forall j :: 0 <= j < |row| ==>
      |ContentLines(row[j].content, width - 6)| == |ContentLines(row[0].content, width - 6)|
  }

  predicate LevelRows(rows: seq<seq<Section>>, width: int) {
    forall k :: 0 <= k < |rows| ==> Level(rows[k], width)
  }

  /** `printSystemInfo` as written. It fails exactly when the terminal reports a
      single column and there is something to show. When every section fits and
      the boxes of each row are equally tall, no filler is ever printed, and every
      line is blank or a full row no wider than the terminal plus one gap. Below a
      shorter box the line is wider (`ReportOverhangs`). */
  function PrintSystemInfo(columns: Option<nat>, sections: seq<Section>): (r: Result<seq<string>, Failure>)
    ensures r.Err? <==> sections != [] && columns == Some(1)
    ensures var w := TerminalWidth(columns);
      r.Ok? && RowFits(sections, BoxWidth(w)) && LevelRows(Chunks(sections, BoxesPerRow(w)), BoxWidth(w)) ==>
      LinesFit(r.value, w + Spacing)
  {
    var w := TerminalWidth(columns);
    var n, b := BoxesPerRow(w), BoxWidth(w);
    var r := Report(columns, sections, Length);
    if r.Ok? && RowFits(sections, b) && LevelRows(Chunks(sections, n), b) then
      var rows := Chunks(sections, n);
      ChunksFit(sections, n, b);
      RowsAgree(rows, b, n);
      assert r == Report(columns, sections, Width);
      assert LinesFit(PrintSystemInfoIntended(columns, sections).value, w + Spacing);
      r
    else r
  }

  /** Equally tall uniform boxes with visible lines never end early, so the filler
      is never printed and how it would be measured makes no difference. */
  lemma LevelMergeAgrees(boxes: seq<seq<string>>, spacing: nat, m1: string -> nat, m2: string -> nat)
    requires boxes != []
    requires forall j :: 0 <= j < |boxes| ==> |boxes[j]| == |boxes[0]| && Uniform(boxes[j]) && Width(boxes[j][0]) > 0
    ensures MergeWith(boxes, spacing, m1) == MergeWith(boxes, spacing, m2)
  {
    var h := MaxHeight(boxes);
    assert h == |boxes[0]|;
    forall i | 0 <= i < h ensures Line(boxes, i, spacing, m1) == Line(boxes, i, spacing, m2) {
      forall j | 0 <= j < |boxes| ensures i < |boxes[j]| && boxes[j][i] != "" {
        assert Width(boxes[j][i]) == Width(boxes[j][0]);
      }
      LineOfLiveBoxes(boxes, i, spacing, m1, m2);
    }
    assert boxes[0] != [];
    var r1, r2 := MergeWith(boxes, spacing, m1), MergeWith(boxes, spacing, m2);
    assert r1.value == r2.value;
  }

  /** A fitting row of equally tall boxes prints the same as written and corrected. */
  lemma RowAgrees(row: seq<Section>, width: int)
    requires row != [] && RowFits(row, width) && Level(row, width)
    ensures PrintRow(row, width, Length) == PrintRow(row, width, Width)
  {
    RowBoxesUniform(row, width);
    var boxes := RowBoxes(row, width).value;
    forall j | 0 <= j < |boxes| ensures |boxes[j]| == |boxes[0]| {
      assert |boxes[j]| == 4 + |ContentLines(row[j].content, width - 6)|;
      assert |boxes[0]| == 4 + |ContentLines(row[0].content, width - 6)|;
    }
    LevelMergeAgrees(boxes, Spacing, Length, Width);
  }

  lemma {:induction false} RowsAgree(rows: seq<seq<Section>>, width: int, n: nat)
    requires RowsFit(rows, width, n) && LevelRows(rows, width)
    ensures PrintRows(rows, width, Length) == PrintRows(rows, width, Width)
    decreases |rows|
  {
    if rows != [] {
      RowsFitTail(rows, width, n);
      RowAgrees(rows[0], width);
      assert LevelRows(rows[1..], width) by {
        forall k | 0 <= k < |rows[1..]| ensures Level(rows[1..][k], width) {
          assert rows[1..][k] == rows[k + 1];
        }
      }
      RowsAgree(rows[1..], width, n);
    }
  }

  /** Two cyan sections side by side on a 100-column terminal, the left one with
      no content and the right one with one word: as written, the line below the
      left box's end is 111 columns wide, 9 more than the terminal plus a gap;
      corrected, it is 102. */
  lemma ReportOverhangs()
    ensures var r := PrintSystemInfo(Some(100), SampleSections);
      r.Ok? && |r.value| > 4 && Width(r.value[4]) == 111 > 100 + Spacing
    ensures var fixed := PrintSystemInfoIntended(Some(100), SampleSections);
      fixed.Ok? && |fixed.value| > 4 && Width(fixed.value[4]) == 102
  {
    var boxes := SampleBoxes();
    SampleLineAsWritten(boxes);
    SampleLineIntended(boxes);
  }

  /** As written, line 4 of the sample report is 111 columns wide. */
  lemma SampleLineAsWritten(boxes: seq<seq<string>>)
    requires boxes == [CreateBox("A", Cyan, [], 49).value, CreateBox("B", Cyan, ["x"], 49).value]
    requires RowBoxes(SampleSections, 49) == Some(boxes)
    ensures MaxHeight(boxes) > 4
    ensures var r := PrintSystemInfo(Some(100), SampleSections);
      r.Ok? && |r.value| > 4 && Width(r.value[4]) == 111
  {
    var m := MergeAsWritten(boxes, Spacing).value;
    assert MergeAsWritten(boxes, Spacing).Some? && |m| > 4 && Width(m[4]) == 111 by {
      SampleFits();
      TallerNeighbourShifts("A", [], "B", ["x"], Cyan, 49, Spacing, 4);
    }
    assert PrintSystemInfo(Some(100), SampleSections) == Ok(Printed(m)) by {
      SampleReport(Length);
    }
    assert Printed(m)[4] == m[4];
  }

  /** Corrected, line 4 of the sample report is 102 columns wide. */
  lemma SampleLineIntended(boxes: seq<seq<string>>)
    requires boxes == [CreateBox("A", Cyan, [], 49).value, CreateBox("B", Cyan, ["x"], 49).value]
    requires RowBoxes(SampleSections, 49) == Some(boxes) && MaxHeight(boxes) > 4
    ensures var r := PrintSystemInfoIntended(Some(100), SampleSections);
      r.Ok? && |r.value| > 4 && Width(r.value[4]) == 102
  {
    assert Merge(boxes, Spacing).Some? by {
      SampleFits();
      RowAligned(SampleSections, 49);
    }
    var m := Merge(boxes, Spacing).value;
    assert |m| > 4;
    assert Width(m[4]) == 102 by {
      SampleFits();
      RowAligned(SampleSections, 49);
    }
    assert PrintSystemInfoIntended(Some(100), SampleSections) == Ok(Printed(m)) by {
      SampleReport(Width);
    }
    assert Printed(m)[4] == m[4];
  }

  const SampleSections: seq<Section> := [Section("A", Cyan, []), Section("B", Cyan, ["x"])]

  /** The sample sections fit a box 49 wide; the left one wraps to no line and
      the right one to one. */
  lemma SampleFits()
    ensures IsSgr(Cyan) && RowFits(SampleSections, 49)
    ensures BoxFits("A", [], 49) && BoxFits("B", ["x"], 49)
    ensures |ContentLines([], 43)| == 0 && |ContentLines(["x"], 43)| == 1
  {
    WrapOneWord("x", 43);
    assert ContentLines(["x"], 43) == Wrap("x", 43) + ContentLines([], 43);
  }

  /** The boxes of the sample row. */
  lemma SampleBoxes() returns (boxes: seq<seq<string>>)
    ensures boxes == [CreateBox("A", Cyan, [], 49).value, CreateBox("B", Cyan, ["x"], 49).value]
    ensures RowBoxes(SampleSections, 49) == Some(boxes)
  {
    var r := RowBoxes(SampleSections, 49);
    assert r.Some? && |r.value| == 2;
    assert Some(r.value[0]) == CreateBox("A", Cyan, [], 49);
    assert Some(r.value[1]) == CreateBox("B", Cyan, ["x"], 49);
    boxes := r.value;
    assert boxes == [boxes[0], boxes[1]];
  }

  /** On a 100-column terminal the sample is one row of two boxes 49 wide. */
  lemma SampleReport(measure: string -> nat)
    ensures Report(Some(100), SampleSections, measure) == Ok(PrintRow(SampleSections, 49, measure).value)
  {
    SampleLayout(measure);
    SampleOneRow(measure);
  }

  /** A single row prints as that row. */
  lemma SampleOneRow(measure: string -> nat)
    ensures PrintRows([SampleSections], 49, measure) == Ok(PrintRow(SampleSections, 49, measure).value)
  {
    var lines := PrintRow(SampleSections, 49, measure).value;
    assert PrintRows([SampleSections], 49, measure) == Ok(lines + []);
    assert lines + [] == lines;
  }

  /** A 100-column terminal holds two boxes 49 wide per row. */
  lemma SampleLayout(measure: string -> nat)
    ensures Report(Some(100), SampleSections, measure) == PrintRows([SampleSections], 49, measure)
  {
    assert TerminalWidth(Some(100)) == 100;
    assert BoxesPerRow(100) == 2;
    assert BoxWidth(100) == 49;
    assert Chunks(SampleSections, 2) == [SampleSections];
  }

  lemma ChunksFit(sections: seq<Section>, n: nat, width: int)
    requires n > 0 && RowFits(sections, width)
    ensures forall k :: 0 <= k < |Chunks(sections, n)| ==> RowFits(Chunks(sections, n)[k], width)
  {
    var rows := Chunks(sections, n);
    forall k | 0 <= k < |rows| ensures RowFits(rows[k], width) {
      FlattenMember(rows, k);
    }
  }

  lemma {:induction false} FlattenMember<T>(rows: seq<seq<T>>, k: nat)
    requires k < |rows|
    ensures forall x :: x in rows[k] ==> x in Seqs.Flatten(rows)
    decreases k
  {
    assert Seqs.Flatten(rows) == rows[0] + Seqs.Flatten(rows[1..]);
    if k > 0 {
      FlattenMember(rows[1..], k - 1);
    }
  }
}
