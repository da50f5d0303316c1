/** The speedtest server directory: the tolerant `<server …>` tag scanner of
    `parseServerXML` and the distance ranking of `sortServersByDistance`
    (functions/stats/utils/speedtest/servers.ts). */
module Servers {
  import opened Wrappers
  import opened Text
  import Seqs

  /** One directory record: the attributes of a `<server …>` tag, by name. */
  datatype Server = Server(attrs: map<string, string>)

  /** The attribute is present and non-empty, i.e. truthy in JavaScript. */
  predicate HasField(s: Server, name: string) {
    name in s.attrs && s.attrs[name] != ""
  }

  /** A record is kept only when `url`, `lat` and `lon` are all truthy. */
  predicate Valid(s: Server) {
    HasField(s, "url") && HasField(s, "lat") && HasField(s, "lon")
  }

  /** The attribute as a template literal renders it: a missing one reads "undefined". */
  function Field(s: Server, name: string): string {
    if name in s.attrs then s.attrs[name] else "undefined"
  }

  const ServerOpen: string := "<server"

  predicate AllWordChars(k: string) {
    forall i :: 0 <= i < |k| ==> IsWordChar(k[i])
  }

  // ---------------------------------------------------------------------------
  // The tag regex /<server\s+([^>]+)>/g

  /** The tag regex tried at position `p` of `xml`: the captured attribute text and
      the index just past the closing `>`. `\s+` is greedy but gives back one
      character when the run of white space reaches the `>` itself. */
  function TagAt(xml: string, p: nat): (r: Option<(string, nat)>)
    ensures r.Some? ==> TagMatch(xml, p, r.value)
  {
    if !OccursAt(xml, ServerOpen, p) then None
    else
      var q := p + |ServerOpen|;
      if q >= |xml| || !IsWs(xml[q]) then None
      else
        match IndexOfChar(xml, '>', q)
        case None => None
        case Some(e) =>
          if e - q < 2 then None
          else
            var m: (string, nat) := (xml[q + Seqs.Min(WsLen(xml[q..]), e - q - 1)..e], e + 1);
            TagFound(xml, p, e, m);
            Some(m)
  }

  /** The regex's match when the first `>` after the white space is at `e`. */
  lemma TagFound(xml: string, p: nat, e: nat, m: (string, nat))
    requires OccursAt(xml, ServerOpen, p)
    requires p + |ServerOpen| + 2 <= e < |xml| && xml[e] == '>' && IsWs(xml[p + |ServerOpen|])
    requires forall j :: p + |ServerOpen| <= j < e ==> xml[j] != '>'
    requires var q := p + |ServerOpen|; m == (xml[q + Seqs.Min(WsLen(xml[q..]), e - q - 1)..e], e + 1)
    ensures TagMatch(xml, p, m)
  {
    var q := p + |ServerOpen|;
    var start := q + Seqs.Min(WsLen(xml[q..]), e - q - 1);
    TagShape(xml, p, e);
    TagMatchAt(xml, p, start, e);
    assert m == (xml[start..e], e + 1);
  }

  /** What a match of the tag regex at `p` is: `<server` at `p`, then a run of
      white space, then the non-empty `>`-free capture, then the first `>` after
      `p`; `\s+` gives back only its last character, and only when the run
      reaches the `>`. */
  predicate TagMatch(xml: string, p: nat, m: (string, nat)) {
    var (cap, next) := m;
    && p < next <= |xml| && xml[next - 1] == '>'
    && OccursAt(xml, ServerOpen, p) && cap != [] && '>' !in cap
    && var q, start := p + |ServerOpen|, next - 1 - |cap|;
      && q < start && WsBetween(xml, q, start) && xml[start..next - 1] == cap
      && '>' !in xml[p..next - 1]
      && (IsWs(xml[start]) ==> start == next - 2)
  }

  lemma TagMatchAt(xml: string, p: nat, start: nat, e: nat)
    requires OccursAt(xml, ServerOpen, p) && p + |ServerOpen| < start < e < |xml| && xml[e] == '>'
    requires WsBetween(xml, p + |ServerOpen|, start) && '>' !in xml[p..e]
    requires IsWs(xml[start]) ==> start == e - 1
    ensures TagMatch(xml, p, (xml[start..e], e + 1))
  {
    var cap := xml[start..e];
    assert |cap| == e - start;
    assert cap[0] == xml[start];
    forall x | 0 <= x < |cap| ensures cap[x] != '>' {
      assert cap[x] == xml[p..e][start - p + x];
    }
  }

  /** The tag regex matching from `p` to the first `>` at `e`: `\s+` takes at
      least one white-space character and gives back only the last one when the
      run reaches `e`, and no `>` comes before `e`. */
  lemma TagShape(xml: string, p: nat, e: nat)
    requires OccursAt(xml, ServerOpen, p)
    requires p + |ServerOpen| + 2 <= e < |xml| && IsWs(xml[p + |ServerOpen|])
    requires forall j :: p + |ServerOpen| <= j < e ==> xml[j] != '>'
    ensures var q := p + |ServerOpen|; var start := q + Seqs.Min(WsLen(xml[q..]), e - q - 1);
      && q < start < e && WsBetween(xml, q, start)
      && '>' !in xml[p..e]
      && (IsWs(xml[start]) ==> start == e - 1)
  {
    var q := p + |ServerOpen|;
    var n := WsLen(xml[q..]);
    assert xml[q..][0] == xml[q];
    var start := q + Seqs.Min(n, e - q - 1);
    forall j | q <= j < start ensures IsWs(xml[j]) {
      assert xml[j] == xml[q..][j - q];
    }
    forall j | p <= j < q ensures xml[j] != '>' {
      assert xml[j] == xml[p..p + |ServerOpen|][j - p];
    }
    SliceAvoids(xml, p, e, '>');
    if n < e - q - 1 {
      assert xml[start] == xml[q..][n];
    }
  }

  /** The attribute texts of the tags matched by successive `exec` calls from `from`. */
  function Tags(xml: string, from: nat): seq<string>
    decreases |xml| - from
  {
    if from >= |xml| then []
    else
      match TagAt(xml, from)
      case Some((cap, next)) => [cap] + Tags(xml, next)
      case None => Tags(xml, from + 1)
  }

  // ---------------------------------------------------------------------------
  // The attribute regex /(\w+)="([^"]*)"/g

  /** Length of the run of word characters at the start of `s`. */
  function WordCharsLen(s: string): (n: nat)
    ensures n <= |s| && AllWordChars(s[..n])
    ensures n == |s| || !IsWordChar(s[n])
  {
    if s == [] || !IsWordChar(s[0]) then 0
    else
      var n := 1 + WordCharsLen(s[1..]);
      assert forall i :: 1 <= i < n ==> s[..n][i] == s[1..][..n - 1][i - 1];
      n
  }

  /** The attribute regex tried at position `i` of `a`: name, value and the index just
      past the closing quote. The name is the whole word-character run at `i`; the
      value is exactly the text between the two double quotes. */
  function AttrAt(a: string, i: nat): (r: Option<(string, string, nat)>)
    ensures r.Some? ==> i < r.value.2 <= |a|
    ensures r.Some? ==> r.value.0 != [] && AllWordChars(r.value.0) && '"' !in r.value.1
    ensures r.Some? ==> a[i..r.value.2] == r.value.0 + "=\"" + r.value.1 + "\""
  {
    if i >= |a| then None
    else
      var w := WordCharsLen(a[i..]);
      if w == 0 || !OccursAt(a, "=\"", i + w) then None
      else
        match IndexOfChar(a, '"', i + w + 2)
        case None => None
        case Some(j) =>
          var k, v := a[i..i + w], a[i + w + 2..j];
          assert k == a[i..][..w];
          SliceAvoids(a, i + w + 2, j, '"');
          AttrShape(a, i, i + w, j);
          Some((k, v, j + 1))
  }

  /** A slice of positions that all differ from `c` does not contain `c`. */
  lemma SliceAvoids(a: string, lo: nat, hi: nat, c: char)
    requires lo <= hi <= |a|
    requires forall x :: lo <= x < hi ==> a[x] != c
    ensures c !in a[lo..hi]
  {
    forall y | 0 <= y < hi - lo ensures a[lo..hi][y] != c {
      assert a[lo..hi][y] == a[lo + y];
    }
  }

  /** The text of a match is its name, `="`, its value and the closing quote. */
  lemma AttrShape(a: string, i: nat, e: nat, j: nat)
    requires i <= e && e + 2 <= j < |a|
    requires a[e..e + 2] == "=\"" && a[j] == '"'
    ensures a[i..j + 1] == a[i..e] + "=\"" + a[e + 2..j] + "\""
  {
    assert a[i..j + 1] == a[i..e] + a[e..e + 2] + a[e + 2..j] + [a[j]];
  }

  /** The (name, value) pairs matched by successive `exec` calls from `from`. */
  function Attrs(a: string, from: nat): (r: seq<(string, string)>)
    decreases |a| - from
    ensures forall m :: m in r ==> m.0 != [] && AllWordChars(m.0) && '"' !in m.1
  {
    if from >= |a| then []
    else
      match AttrAt(a, from)
      case Some((k, v, next)) => [(k, v)] + Attrs(a, next)
      case None => Attrs(a, from + 1)
  }

  /** `server[name] = value` applied to the pairs in order. */
  function ToMap(pairs: seq<(string, string)>): map<string, string>
  {
    if pairs == [] then map[]
    else ToMap(pairs[..|pairs| - 1])[pairs[|pairs| - 1].0 := pairs[|pairs| - 1].1]
  }

  /** A name is present exactly when some pair carries it. */
  lemma {:induction false} ToMapKeys(pairs: seq<(string, string)>, k: string)
    ensures k in ToMap(pairs) <==> exists i :: 0 <= i < |pairs| && pairs[i].0 == k
  {
    if pairs != [] {
      var n := |pairs| - 1;
      var init := pairs[..n];
      ToMapKeys(init, k);
      if k in ToMap(pairs) {
        if pairs[n].0 != k {
          var i :| 0 <= i < n && init[i].0 == k;
          assert pairs[i] == init[i];
        }
      } else {
        forall i | 0 <= i < |pairs|
          ensures pairs[i].0 != k
        {
          if i < n {
            assert pairs[i] == init[i];
          }
        }
      }
    }
  }

  /** When a name repeats, the value of its last occurrence wins. */
  lemma {:induction false} LastWins(pairs: seq<(string, string)>, k: string)
    requires k in ToMap(pairs)
    ensures exists i :: && 0 <= i < |pairs| && pairs[i].0 == k && ToMap(pairs)[k] == pairs[i].1
                        && forall j :: i < j < |pairs| ==> pairs[j].0 != k
  {
    var n := |pairs| - 1;
    if pairs[n].0 != k {
      var init := pairs[..n];
      assert k in ToMap(init);
      LastWins(init, k);
      var i :| && 0 <= i < |init| && init[i].0 == k && ToMap(init)[k] == init[i].1
               && forall j :: i < j < |init| ==> init[j].0 != k;
      assert pairs[i] == init[i];
      assert forall j :: i < j < n ==> pairs[j] == init[j];
    }
  }

  /** The record a tag's attribute text produces. */
  function Record(cap: string): Server {
    Server(ToMap(Attrs(cap, 0)))
  }

  function Records(caps: seq<string>): (r: seq<Server>)
    ensures |r| == |caps|
  {
    if caps == [] then [] else [Record(caps[0])] + Records(caps[1..])
  }

  /** The scanner loop of `parseServerXML` from position `from`: each matched tag
      becomes a record, kept only when it is valid. */
  function ParseFrom(xml: string, from: nat): seq<Server>
    decreases |xml| - from
  {
    if from >= |xml| then []
    else
      match TagAt(xml, from)
      case Some((cap, next)) =>
        var s := Record(cap);
        (if Valid(s) then [s] else []) + ParseFrom(xml, next)
      case None => ParseFrom(xml, from + 1)
  }

  /** The scanner keeps exactly the valid records of the matched tags. */
  lemma {:induction false} ParseIsFilter(xml: string, from: nat)
    ensures ParseFrom(xml, from) == Seqs.Filter(Valid, Records(Tags(xml, from)))
    decreases |xml| - from
  {
    if from < |xml| {
      match TagAt(xml, from)
      case Some((cap, next)) =>
        ParseIsFilter(xml, next);
        var rs := Records(Tags(xml, from));
        assert rs == [Record(cap)] + Records(Tags(xml, next));
        assert rs[1..] == Records(Tags(xml, next));
      case None =>
        ParseIsFilter(xml, from + 1);
    }
  }

  /** `parseServerXML`: the valid records of the document's `<server …>` tags, in
      document order; partial records are skipped without error. */
  function ParseServerXml(xml: string): (r: seq<Server>)
    ensures r == Seqs.Filter(Valid, Records(Tags(xml, 0)))
    ensures forall s :: s in r ==> Valid(s)
    ensures Seqs.IsSubseq(r, Records(Tags(xml, 0)))
    ensures forall s :: s in Records(Tags(xml, 0)) && Valid(s) ==> s in r
    ensures |r| <= |Tags(xml, 0)|
  {
    ParseIsFilter(xml, 0);
    Seqs.FilterSpec(Valid, Records(Tags(xml, 0)));
    ParseFrom(xml, 0)
  }

  lemma {:induction false} NoTagsFrom(xml: string, from: nat)
    requires forall p :: !OccursAt(xml, ServerOpen, p)
    ensures Tags(xml, from) == []
    decreases |xml| - from
  {
    if from < |xml| {
      NoTagsFrom(xml, from + 1);
    }
  }

  /** A document without any `<server` text parses to no records rather than failing. */
  lemma NoTagsNoServers(xml: string)
    requires forall p :: !OccursAt(xml, ServerOpen, p)
    ensures ParseServerXml(xml) == []
  {
    NoTagsFrom(xml, 0);
  }

  // ---------------------------------------------------------------------------
  // Ranking

  /** The haversine distance of a record, as a float: a number or NaN (when `lat`
      or `lon` does not parse). */
  datatype Dist = Km(km: real) | NaN

  /** The comparator key `a.distance || 0`: NaN compares as 0. */
  function SortKey(d: Dist): real {
    if d.NaN? then 0.0 else d.km
  }

  /** A record with the `distance` property added by the ranking. */
  datatype Ranked = Ranked(server: Server, distance: Dist)

  predicate SortedByDistance(rs: seq<Ranked>) {
    forall i, j :: 0 <= i < j < |rs| ==> SortKey(rs[i].distance) <= SortKey(rs[j].distance)
  }

  /** `servers.map(server => ({...server, distance}))`. */
  function Annotate(servers: seq<Server>, dist: Server -> Dist): (r: seq<Ranked>)
    ensures |r| == |servers|
    ensures forall i :: 0 <= i < |r| ==> r[i] == Ranked(servers[i], dist(servers[i]))
  {
    seq(|servers|, i requires 0 <= i < |servers| => Ranked(servers[i], dist(servers[i])))
  }

  /** Places `x` before the first element whose key is not smaller. */
  function Insert(x: Ranked, rs: seq<Ranked>): seq<Ranked>
  {
    if rs == [] || SortKey(x.distance) <= SortKey(rs[0].distance) then [x] + rs
    else [rs[0]] + Insert(x, rs[1..])
  }

  lemma {:induction false} InsertMultiset(x: Ranked, rs: seq<Ranked>)
    ensures multiset(Insert(x, rs)) == multiset(rs) + multiset{x}
  {
    if rs != [] && SortKey(x.distance) > SortKey(rs[0].distance) {
      InsertMultiset(x, rs[1..]);
      assert rs == [rs[0]] + rs[1..];
    }
  }

  lemma InsertHeadBound(x: Ranked, rs: seq<Ranked>)
    requires SortedByDistance(rs) && rs != [] && SortKey(x.distance) > SortKey(rs[0].distance)
    ensures forall y :: y in Insert(x, rs[1..]) ==> SortKey(rs[0].distance) <= SortKey(y.distance)
  {
    var tail := Insert(x, rs[1..]);
    InsertMultiset(x, rs[1..]);
    forall y | y in tail
      ensures SortKey(rs[0].distance) <= SortKey(y.distance)
    {
      assert y in multiset(tail);
      if y != x {
        assert y in multiset(rs[1..]);
      }
    }
  }

  lemma {:induction false} InsertSorted(x: Ranked, rs: seq<Ranked>)
    requires SortedByDistance(rs)
    ensures SortedByDistance(Insert(x, rs))
  {
    if rs != [] && SortKey(x.distance) > SortKey(rs[0].distance) {
      var tail := Insert(x, rs[1..]);
      InsertSorted(x, rs[1..]);
      InsertHeadBound(x, rs);
      var r := [rs[0]] + tail;
      forall i, j | 0 <= i < j < |r|
        ensures SortKey(r[i].distance) <= SortKey(r[j].distance)
      {
        assert r[j] == tail[j - 1];
        if i > 0 {
          assert r[i] == tail[i - 1];
        }
      }
    }
  }

  /** A stable insertion sort on the comparator key. */
  function Sort(rs: seq<Ranked>): (r: seq<Ranked>)
    ensures SortedByDistance(r)
    ensures multiset(r) == multiset(rs)
  {
    if rs == [] then []
    else
      assert rs == [rs[0]] + rs[1..];
      InsertSorted(rs[0], Sort(rs[1..]));
      InsertMultiset(rs[0], Sort(rs[1..]));
      Insert(rs[0], Sort(rs[1..]))
  }

  /** Cutting a sorted sequence keeps nothing farther than what it drops. */
  lemma SortedCut(all: seq<Ranked>, m: nat)
    requires SortedByDistance(all) && m <= |all|
    ensures multiset(all) - multiset(all[..m]) == multiset(all[m..])
    ensures forall x, y :: x in multiset(all[m..]) && y in all[..m] ==>
      SortKey(y.distance) <= SortKey(x.distance)
  {
    assert all == all[..m] + all[m..];
  }

  const ShortlistSize: nat := 10

  /** `sortServersByDistance`: the nearest ten records, nearest first, each an input
      record with its distance attached; no dropped record is nearer than a kept one. */
  function SortServersByDistance(servers: seq<Server>, dist: Server -> Dist): (r: seq<Ranked>)
    ensures |r| == Seqs.Min(ShortlistSize, |servers|)
    ensures SortedByDistance(r)
    ensures forall x :: x in r ==> x.server in servers && x.distance == dist(x.server)
    ensures multiset(r) <= multiset(Annotate(servers, dist))
    ensures forall x, y :: x in multiset(Annotate(servers, dist)) - multiset(r) && y in r ==>
      SortKey(y.distance) <= SortKey(x.distance)
  {
    var all := Sort(Annotate(servers, dist));
    ShortlistSpec(servers, dist, all);
    all[..Seqs.Min(ShortlistSize, |all|)]
  }

  lemma ShortlistSpec(servers: seq<Server>, dist: Server -> Dist, all: seq<Ranked>)
    requires all == Sort(Annotate(servers, dist))
    ensures |all| == |servers|
    ensures SortedByDistance(all[..Seqs.Min(ShortlistSize, |all|)])
    ensures multiset(all[..Seqs.Min(ShortlistSize, |all|)]) <= multiset(Annotate(servers, dist))
    ensures forall x :: x in all[..Seqs.Min(ShortlistSize, |all|)] ==>
      x.server in servers && x.distance == dist(x.server)
    ensures forall x, y ::
      (x in multiset(Annotate(servers, dist)) - multiset(all[..Seqs.Min(ShortlistSize, |all|)])
       && y in all[..Seqs.Min(ShortlistSize, |all|)]) ==> SortKey(y.distance) <= SortKey(x.distance)
  {
    var annotated := Annotate(servers, dist);
    assert |all| == |annotated| by {
      assert |multiset(all)| == |multiset(annotated)|;
    }
    var m := Seqs.Min(ShortlistSize, |all|);
    SortedCut(all, m);
    PrefixMembers(servers, dist, all, m);
  }

  lemma PrefixMembers(servers: seq<Server>, dist: Server -> Dist, all: seq<Ranked>, m: nat)
    requires multiset(all) == multiset(Annotate(servers, dist)) && m <= |all|
    ensures multiset(all[..m]) <= multiset(Annotate(servers, dist))
    ensures forall x :: x in all[..m] ==> x.server in servers && x.distance == dist(x.server)
  {
    var annotated := Annotate(servers, dist);
    assert multiset(all) == multiset(all[..m]) + multiset(all[m..]) by {
      assert all == all[..m] + all[m..];
    }
    forall x | x in all[..m]
      ensures x.server in servers && x.distance == dist(x.server)
    {
      assert x in multiset(annotated);
      var i :| 0 <= i < |annotated| && annotated[i] == x;
    }
  }
}
