/**
 * WebLinkLabel: a label whose text may hold <url=U>T</url> blocks. Setting
 * LinkText keeps the raw text, shows each block as its link text T and
 * makes that stretch of the shown text a link to U.
 *
 * The markup pattern <url=([^>]+)>([^<]+)</url> is read by a hand-written
 * scanner: the URL is the run of characters up to the first '>', the link
 * text the run up to the next '<', so there is at most one way to match at
 * each position. Matches are taken left to right without overlap.
 */
module WebLinkLabel {

  datatype Option<T> = None | Some(value: T)

  const Open := "<url="
  const Close := "</url>"

  /** One match of the markup: where it starts, its URL and its link text. */
  datatype Match = Match(index: nat, url: string, link: string) {
    /** The markup this match stands for. */
    function Markup(): string { Open + url + ">" + link + Close }
    /** How many characters the match covers: the link text plus 12 characters of markup and the URL. */
    function Length(): nat { |url| + |link| + 12 }
    function End(): nat { index + Length() }
  }

  /** A LinkLabel link: a stretch of the shown text and the data handed to the click handler. */
  datatype Link = Link(start: nat, length: nat, data: string)

  /** What setting LinkText shows: the text and its links. */
  datatype Rendering = Rendering(text: string, links: seq<Link>)

  /** The URL group [^>]+ and the link group [^<]+: non-empty, without the closing character. */
  predicate Groups(url: string, link: string) {
    url != [] && '>' !in url && link != [] && '<' !in link
  }

  /**
   * The match's markup lies in s at its index, part by part: the opening
   * "<url=", the URL, '>', the link text and the closing "</url>".
   */
  predicate Occurs(s: string, m: Match) {
    var i, u, l := m.index, |m.url|, |m.link|;
    && Groups(m.url, m.link) && m.End() <= |s|
    && s[i..i + 5] == Open && s[i + 5..i + 5 + u] == m.url && s[i + 5 + u] == '>'
    && s[i + 6 + u..i + 6 + u + l] == m.link && s[i + 6 + u + l..m.End()] == Close
  }

  /** The parts of a match's markup, by position. */
  lemma MarkupParts(m: Match)
    ensures var t, u, l := m.Markup(), |m.url|, |m.link|;
      && |t| == m.Length()
      && t[..5] == Open && t[5..5 + u] == m.url && t[5 + u] == '>'
      && t[6 + u..6 + u + l] == m.link && t[6 + u + l..] == Close
  {
    var t := m.Markup();
    assert t == Open + m.url + ">" + m.link + Close;
  }

  /** A slice of a slice is a slice. */
  lemma SliceOfSlice(s: string, i: nat, j: nat, a: nat, b: nat)
    requires i <= j <= |s| && a <= b <= j - i
    ensures s[i..j][a..b] == s[i + a..i + b]
  {
    forall k | 0 <= k < b - a
      ensures s[i..j][a..b][k] == s[i + a..i + b][k]
    {
    }
  }

  /** The stretch of s a match would cover, cut into the parts of its markup. */
  lemma StretchParts(s: string, m: Match)
    requires m.End() <= |s|
    ensures var i, u, l, w := m.index, |m.url|, |m.link|, s[m.index..m.End()];
      && w[..5] == s[i..i + 5] && w[5..5 + u] == s[i + 5..i + 5 + u] && w[5 + u] == s[i + 5 + u]
      && w[6 + u..6 + u + l] == s[i + 6 + u..i + 6 + u + l] && w[6 + u + l..] == s[i + 6 + u + l..m.End()]
  {
    var i, u, l := m.index, |m.url|, |m.link|;
    SliceOfSlice(s, i, m.End(), 0, 5);
    SliceOfSlice(s, i, m.End(), 5, 5 + u);
    SliceOfSlice(s, i, m.End(), 6 + u, 6 + u + l);
    SliceOfSlice(s, i, m.End(), 6 + u + l, 12 + u + l);
  }

  /** A stretch of s is the two stretches it splits into. */
  lemma SliceSplit(s: string, a: nat, b: nat, c: nat)
    requires a <= b <= c <= |s|
    ensures s[a..c] == s[a..b] + s[b..c]
  {
  }

  /** An occurrence lays the whole markup in s. */
  lemma OccursGivesMarkup(s: string, m: Match)
    requires Occurs(s, m)
    ensures s[m.index..m.End()] == m.Markup()
  {
    var i, u, l, e := m.index, |m.url|, |m.link|, m.End();
    SliceSplit(s, i + 6 + u, i + 6 + u + l, e);
    var tail := m.link + Close;
    assert s[i + 6 + u..e] == tail;
    SliceSplit(s, i + 5 + u, i + 6 + u, e);
    assert s[i + 5 + u..i + 6 + u] == ">";
    assert s[i + 5 + u..e] == ">" + tail;
    SliceSplit(s, i + 5, i + 5 + u, e);
    assert s[i + 5..e] == m.url + (">" + tail);
    SliceSplit(s, i, i + 5, e);
    assert s[i..e] == Open + (m.url + (">" + tail));
    AppendNested(Open, m.url, ">", m.link, Close);
  }

  /** Five pieces appended from the left are the same pieces appended from the right. */
  lemma AppendNested<T>(a: seq<T>, b: seq<T>, c: seq<T>, d: seq<T>, e: seq<T>)
    ensures a + b + c + d + e == a + (b + (c + (d + e)))
  {
    assert a + b + c + d + e == (a + b + c) + (d + e);
    assert (a + b + c) + (d + e) == a + (b + (c + (d + e)));
  }

  /** The whole markup laid in s is an occurrence, for URLs and link texts that fit the groups. */
  lemma MarkupGivesOccurs(s: string, m: Match)
    requires Groups(m.url, m.link) && m.End() <= |s| && s[m.index..m.End()] == m.Markup()
    ensures Occurs(s, m)
  {
    MarkupParts(m);
    StretchParts(s, m);
  }

  /** Occurring part by part is occurring as the whole markup, for URLs and link texts that fit the groups. */
  lemma OccursIsMarkup(s: string, m: Match)
    requires Groups(m.url, m.link) && m.End() <= |s|
    ensures Occurs(s, m) <==> s[m.index..m.End()] == m.Markup()
  {
    if Occurs(s, m) {
      OccursGivesMarkup(s, m);
    } else if s[m.index..m.End()] == m.Markup() {
      MarkupGivesOccurs(s, m);
    }
  }

  /** The first index at or after start holding stop, or the end of s. */
  function RunEnd(s: string, start: nat, stop: char): (k: nat)
    requires start <= |s|
    ensures start <= k <= |s|
    ensures k < |s| ==> s[k] == stop
    ensures forall j :: start <= j < k ==> s[j] != stop
    decreases |s| - start
  {
    if start == |s| || s[start] == stop then start else RunEnd(s, start + 1, stop)
  }

  /** A run of characters other than stop, followed by stop, ends where stop is. */
  lemma {:induction false} RunEndAt(s: string, start: nat, stop: char, k: nat)
    requires start <= k < |s| && s[k] == stop
    requires forall j :: start <= j < k ==> s[j] != stop
    ensures RunEnd(s, start, stop) == k
    decreases k - start
  {
    if start < k {
      RunEndAt(s, start + 1, stop, k);
    }
  }

  /**
   * The markup pattern tried at position i: "<url=" there, then the URL up
   * to the first '>'. A match found starts at i, lies inside s and has a
   * link text; MatchAtSound shows that its markup is there.
   */
  function MatchAt(s: string, i: nat): (r: Option<Match>)
    requires i <= |s|
    ensures r.Some? ==> r.value.index == i && r.value.End() <= |s| && r.value.link != []
  {
    if i + 5 <= |s| && s[i..i + 5] == Open then MatchUrl(s, i, RunEnd(s, i + 5, '>')) else None
  }

  /** The rest of the pattern once the URL of a match at i has run to urlEnd: '>', then the link text up to the first '<'. */
  function MatchUrl(s: string, i: nat, urlEnd: nat): (r: Option<Match>)
    requires i + 5 <= urlEnd <= |s|
    ensures r.Some? ==> r.value.index == i && r.value.End() <= |s| && r.value.link != []
  {
    if urlEnd == i + 5 || urlEnd == |s| then None else MatchLink(s, i, urlEnd, RunEnd(s, urlEnd + 1, '<'))
  }

  /** The rest of the pattern once the link text has run to linkEnd: a non-empty link text, then "</url>". */
  function MatchLink(s: string, i: nat, urlEnd: nat, linkEnd: nat): (r: Option<Match>)
    requires i + 5 < urlEnd < linkEnd <= |s|
    ensures r.Some? ==> r.value.index == i && r.value.End() <= |s| && r.value.link != []
  {
    if linkEnd == urlEnd + 1 || !(linkEnd + 6 <= |s| && s[linkEnd..linkEnd + 6] == Close) then None
    else Some(Match(i, s[i + 5..urlEnd], s[urlEnd + 1..linkEnd]))
  }

  /** What the scanner finds is an occurrence of the pattern. */
  lemma MatchAtSound(s: string, i: nat)
    requires i <= |s|
    ensures MatchAt(s, i).Some? ==> Occurs(s, MatchAt(s, i).value)
  {
  }

  /** Once the URL and the link text of an occurrence have been run over, the rest of the pattern gives that match. */
  lemma MatchLinkFinds(s: string, m: Match)
    requires Occurs(s, m)
    ensures MatchLink(s, m.index, m.index + 5 + |m.url|, m.index + 6 + |m.url| + |m.link|) == Some(m)
  {
    var i, urlEnd, linkEnd := m.index, m.index + 5 + |m.url|, m.index + 6 + |m.url| + |m.link|;
    assert s[linkEnd..linkEnd + 6] == Close;
    assert Match(i, s[i + 5..urlEnd], s[urlEnd + 1..linkEnd]) == m;
  }

  /**
   * The scanner finds every occurrence of the pattern: wherever the markup
   * of a URL and a link text that fit the groups starts, MatchAt finds
   * exactly that match there.
   */
  lemma MatchAtComplete(s: string, m: Match)
    requires Occurs(s, m)
    ensures MatchAt(s, m.index) == Some(m)
  {
    var i, urlEnd := m.index, m.index + 5 + |m.url|;
    assert RunEnd(s, i + 5, '>') == urlEnd by { UrlRunEnds(s, m); }
    assert MatchUrl(s, i, urlEnd) == Some(m) by {
      LinkRunEnds(s, m);
      MatchLinkFinds(s, m);
    }
    assert i + 5 <= |s| && s[i..i + 5] == Open;
  }

  /** The URL of an occurrence runs up to the '>' after it. */
  lemma UrlRunEnds(s: string, m: Match)
    requires Occurs(s, m)
    ensures RunEnd(s, m.index + 5, '>') == m.index + 5 + |m.url|
  {
    var i, urlEnd := m.index, m.index + 5 + |m.url|;
    assert forall j :: i + 5 <= j < urlEnd ==> s[j] == m.url[j - i - 5];
    RunEndAt(s, i + 5, '>', urlEnd);
  }

  /** The link text of an occurrence runs up to the '<' of the closing "</url>". */
  lemma LinkRunEnds(s: string, m: Match)
    requires Occurs(s, m)
    ensures RunEnd(s, m.index + 6 + |m.url|, '<') == m.index + 6 + |m.url| + |m.link|
  {
    var start, linkEnd := m.index + 6 + |m.url|, m.index + 6 + |m.url| + |m.link|;
    assert s[linkEnd] == s[linkEnd..m.End()][0];
    assert forall j :: start <= j < linkEnd ==> s[j] == m.link[j - start];
    RunEndAt(s, start, '<', linkEnd);
  }

  /**
   * Matches laid out left to right from pos: each starts at or after the
   * end of the one before, ends inside s and has a non-empty link text.
   */
  ghost predicate Chain(s: string, ms: seq<Match>, pos: nat)
    decreases |ms|
  {
    pos <= |s| &&
    (ms == [] || (pos <= ms[0].index && ms[0].End() <= |s| && ms[0].link != [] && Chain(s, ms[1..], ms[0].End())))
  }

  /**
   * Regex.Matches from pos: the leftmost match at or after pos, then the
   * matches after it, laid out left to right without overlapping.
   */
  function Matches(s: string, pos: nat): (ms: seq<Match>)
    requires pos <= |s|
    ensures Chain(s, ms, pos)
    decreases |s| - pos
  {
    var r := MatchAt(s, pos);
    if r.Some? then
      var rest := Matches(s, r.value.End());
      assert ([r.value] + rest)[1..] == rest;
      [r.value] + rest
    else if pos == |s| then []
    else Matches(s, pos + 1)
  }

  /** Each match listed is what the pattern gives at its index. */
  lemma {:induction false} MatchesFound(s: string, pos: nat)
    requires pos <= |s|
    ensures forall k :: 0 <= k < |Matches(s, pos)| ==>
      Matches(s, pos)[k].index <= |s| && MatchAt(s, Matches(s, pos)[k].index) == Some(Matches(s, pos)[k])
    decreases |s| - pos
  {
    var ms := Matches(s, pos);
    var r := MatchAt(s, pos);
    if r.Some? {
      MatchesFound(s, r.value.End());
      var rest := Matches(s, r.value.End());
      assert ms == [r.value] + rest;
      forall k | 0 <= k < |ms|
        ensures ms[k].index <= |s| && MatchAt(s, ms[k].index) == Some(ms[k])
      {
        if k > 0 {
          assert ms[k] == rest[k - 1];
        }
      }
    } else if pos < |s| {
      MatchesFound(s, pos + 1);
    }
  }

  /**
   * The first match is the leftmost one: no position from pos up to it
   * holds the pattern, and no position at all when there is no match.
   */
  lemma {:induction false} MatchesLeftmost(s: string, pos: nat)
    requires pos <= |s|
    ensures Matches(s, pos) == [] ==> forall i :: pos <= i <= |s| ==> MatchAt(s, i).None?
    ensures Matches(s, pos) != [] ==> forall i :: pos <= i < Matches(s, pos)[0].index ==> MatchAt(s, i).None?
    decreases |s| - pos
  {
    var r := MatchAt(s, pos);
    if r.Some? {
      assert Matches(s, pos)[0] == r.value;
    } else if pos < |s| {
      var ms := Matches(s, pos + 1);
      assert Matches(s, pos) == ms;
      MatchesLeftmost(s, pos + 1);
      if ms != [] {
        forall i | pos <= i < ms[0].index
          ensures MatchAt(s, i).None?
        {
          if i == pos {
            assert MatchAt(s, i) == r;
          }
        }
      }
    } else {
      assert Matches(s, pos) == [];
    }
  }

  /** A text has no match at all exactly when no position holds the pattern. */
  lemma NoMatchesIffNoPattern(s: string)
    ensures Matches(s, 0) == [] <==> forall i :: 0 <= i <= |s| ==> MatchAt(s, i).None?
  {
    MatchesLeftmost(s, 0);
    MatchesFound(s, 0);
    var ms := Matches(s, 0);
    if ms != [] {
      assert MatchAt(s, ms[0].index).Some?;
    }
  }

  /** The markup characters a list of matches holds: 12 per match plus its URL. */
  function MarkupLength(ms: seq<Match>): nat {
    if ms == [] then 0 else |ms[0].url| + 12 + MarkupLength(ms[1..])
  }

  /**
   * The text shown for the text from pos, given the matches after pos: the
   * text before each match, then its link text; after the last match, the
   * rest of the text. Every match shortens the text by its markup.
   */
  function ShownText(s: string, ms: seq<Match>, pos: nat): (t: string)
    requires Chain(s, ms, pos)
    ensures |t| + MarkupLength(ms) == |s| - pos
    decreases |ms|
  {
    if ms == [] then s[pos..]
    else s[pos..ms[0].index] + ms[0].link + ShownText(s, ms[1..], ms[0].End())
  }

  /**
   * The links added for the matches after pos, when offset characters are
   * already shown: one per match, over its link text, carrying its URL.
   */
  function LinksFrom(s: string, ms: seq<Match>, pos: nat, offset: nat): (links: seq<Link>)
    requires Chain(s, ms, pos)
    ensures |links| == |ms|
    decreases |ms|
  {
    if ms == [] then []
    else
      var start := offset + (ms[0].index - pos);
      [Link(start, |ms[0].link|, ms[0].url)] + LinksFrom(s, ms[1..], ms[0].End(), start + |ms[0].link|)
  }

  /** What LinkText shows for a raw text, and its links. */
  function Rendered(s: string): Rendering {
    var ms := Matches(s, 0);
    Rendering(ShownText(s, ms, 0), LinksFrom(s, ms, 0, 0))
  }

  /**
   * One step of the loop that builds the shown text: appending the text
   * before the first match and its link text to what is already shown
   * leaves the rest of the matches to show.
   */
  lemma TextStep(s: string, ms: seq<Match>, pos: nat, shown: string, target: string)
    requires Chain(s, ms, pos) && ms != []
    requires shown + ShownText(s, ms, pos) == target
    ensures Chain(s, ms[1..], ms[0].End())
    ensures shown + s[pos..ms[0].index] + ms[0].link + ShownText(s, ms[1..], ms[0].End()) == target
  {
    var m := ms[0];
    assert ShownText(s, ms, pos) == s[pos..m.index] + m.link + ShownText(s, ms[1..], m.End());
    assert shown + s[pos..m.index] + m.link + ShownText(s, ms[1..], m.End())
        == shown + (s[pos..m.index] + m.link + ShownText(s, ms[1..], m.End()));
  }

  /**
   * One step of the loop that builds the links: adding the first match's
   * link, which starts where its link text is shown, leaves the links of
   * the rest of the matches to add.
   */
  lemma LinksStep(s: string, ms: seq<Match>, pos: nat, builder: string, added: seq<Link>, target: seq<Link>)
    requires Chain(s, ms, pos) && ms != []
    requires added + LinksFrom(s, ms, pos, |builder|) == target
    ensures var shown := builder + s[pos..ms[0].index];
      added + [Link(|shown|, |ms[0].link|, ms[0].url)] + LinksFrom(s, ms[1..], ms[0].End(), |shown + ms[0].link|) == target
  {
    var m := ms[0];
    var start := |builder| + (m.index - pos);
    var rest := LinksFrom(s, ms[1..], m.End(), start + |m.link|);
    assert LinksFrom(s, ms, pos, |builder|) == [Link(start, |m.link|, m.url)] + rest;
    assert added + [Link(start, |m.link|, m.url)] + rest == added + ([Link(start, |m.link|, m.url)] + rest);
  }

  /** A stretch of a text after a prefix is the stretch of the text moved by the prefix's length. */
  lemma SliceAfterPrefix(p: string, t: string, a: nat, b: nat)
    requires a <= b <= |t|
    ensures (p + t)[|p| + a..|p| + b] == t[a..b]
  {
  }

  /**
   * A link covers a match in a shown text that starts offset characters in:
   * less the offset, it spans the match's link text in the shown text, and
   * it carries the match's URL.
   */
  predicate Covers(t: string, offset: nat, l: Link, m: Match) {
    && offset <= l.start
    && l.start - offset + l.length <= |t|
    && t[l.start - offset..l.start - offset + l.length] == m.link
    && l.data == m.url
  }

  /** A link covering a match in a text still covers it once a prefix is shown before the text. */
  lemma CoversAfterPrefix(head: string, rest: string, offset: nat, l: Link, m: Match)
    requires Covers(rest, offset + |head|, l, m)
    ensures Covers(head + rest, offset, l, m)
  {
    var a := l.start - offset - |head|;
    SliceAfterPrefix(head, rest, a, a + l.length);
  }

  /** The link over a match's link text, shown right after the text before it, covers the match. */
  lemma CoversFirst(gap: string, rest: string, offset: nat, m: Match)
    ensures Covers(gap + m.link + rest, offset, Link(offset + |gap|, |m.link|, m.url), m)
  {
    var t := gap + m.link + rest;
    assert t[|gap|..|gap| + |m.link|] == m.link;
  }

  /** Every link covers its match in the shown text. */
  lemma {:induction false} LinkSpans(s: string, ms: seq<Match>, pos: nat, offset: nat)
    requires Chain(s, ms, pos)
    ensures forall i :: 0 <= i < |ms| ==> Covers(ShownText(s, ms, pos), offset, LinksFrom(s, ms, pos, offset)[i], ms[i])
    decreases |ms|
  {
    if ms != [] {
      var m := ms[0];
      var gap := s[pos..m.index];
      var next := offset + |gap| + |m.link|;
      var t, links := ShownText(s, ms, pos), LinksFrom(s, ms, pos, offset);
      var rest, restLinks := ShownText(s, ms[1..], m.End()), LinksFrom(s, ms[1..], m.End(), next);
      LinkSpans(s, ms[1..], m.End(), next);
      assert t == gap + m.link + rest;
      assert links == [Link(offset + |gap|, |m.link|, m.url)] + restLinks;
      forall i | 0 <= i < |ms|
        ensures Covers(t, offset, links[i], ms[i])
      {
        if i == 0 {
          CoversFirst(gap, rest, offset, m);
        } else {
          assert links[i] == restLinks[i - 1] && ms[i] == ms[1..][i - 1];
          CoversAfterPrefix(gap + m.link, rest, offset, restLinks[i - 1], ms[i]);
        }
      }
    }
  }

  /**
   * Every link is non-empty and starts at or after the offset, and each
   * ends no later than the next one starts.
   */
  lemma {:induction false} LinksOrdered(s: string, ms: seq<Match>, pos: nat, offset: nat)
    requires Chain(s, ms, pos)
    ensures forall i :: 0 <= i < |ms| ==>
      offset <= LinksFrom(s, ms, pos, offset)[i].start && LinksFrom(s, ms, pos, offset)[i].length > 0
    ensures forall i :: 0 <= i < |ms| - 1 ==>
      LinksFrom(s, ms, pos, offset)[i].start + LinksFrom(s, ms, pos, offset)[i].length
        <= LinksFrom(s, ms, pos, offset)[i + 1].start
    decreases |ms|
  {
    if ms != [] {
      var m := ms[0];
      var next := offset + (m.index - pos) + |m.link|;
      var links, restLinks := LinksFrom(s, ms, pos, offset), LinksFrom(s, ms[1..], m.End(), next);
      LinksOrdered(s, ms[1..], m.End(), next);
      assert links == [Link(offset + (m.index - pos), |m.link|, m.url)] + restLinks;
      forall i | 0 <= i < |ms|
        ensures offset <= links[i].start && links[i].length > 0
      {
        if i > 0 {
          assert links[i] == restLinks[i - 1];
        }
      }
      forall i | 0 <= i < |ms| - 1
        ensures links[i].start + links[i].length <= links[i + 1].start
      {
        assert links[i + 1] == restLinks[i];
        if i > 0 {
          assert links[i] == restLinks[i - 1];
        }
      }
    }
  }

  /** Text without a match is shown unchanged, with no links. */
  lemma NoMatchShownUnchanged(s: string)
    requires forall i :: 0 <= i <= |s| ==> MatchAt(s, i).None?
    ensures Rendered(s) == Rendering(s, [])
  {
    NoMatchesIffNoPattern(s);
    assert s[0..] == s;
  }

  /** No position of a text short of the markup's opening, other than position 0, starts it. */
  lemma NotOpenAt(s: string, i: nat)
    requires 0 < i && i + 5 <= |s|
    requires s[i] != '<' || s[i + 1] != 'u'
    ensures s[i..i + 5] != Open
  {
    assert s[i..i + 5][0] == s[i] && s[i..i + 5][1] == s[i + 1];
  }

  /** A block with an empty link text is not a match. */
  lemma EmptyLinkTextIsLiteral()
    ensures Rendered("<url=x></url>") == Rendering("<url=x></url>", [])
  {
    var s := "<url=x></url>";
    forall i | 0 <= i <= |s|
      ensures MatchAt(s, i).None?
    {
      if i == 0 {
        assert s[0..5] == Open;
        RunEndAt(s, 5, '>', 6);
        assert RunEnd(s, 7, '<') == 7;
      } else if i + 5 <= |s| {
        NotOpenAt(s, i);
      }
    }
    NoMatchShownUnchanged(s);
  }

  /** A block with an empty URL is not a match. */
  lemma EmptyUrlIsLiteral()
    ensures Rendered("<url=>t</url>") == Rendering("<url=>t</url>", [])
  {
    var s := "<url=>t</url>";
    forall i | 0 <= i <= |s|
      ensures MatchAt(s, i).None?
    {
      if i == 0 {
        assert RunEnd(s, 5, '>') == 5;
      } else if i + 5 <= |s| {
        NotOpenAt(s, i);
      }
    }
    NoMatchShownUnchanged(s);
  }

  /** The label: the raw text last assigned, the text it shows and its links. */
  class WebLinkLabel {
    var rawText: string
    /** base.Text: what the label shows. */
    var text: string
    var links: seq<Link>

    constructor ()
      ensures rawText == "" && text == "" && links == []
    {
      rawText, text, links := "", "", [];
    }

    /** The LinkText getter: the raw text as last assigned. */
    function LinkText(): (t: string)
      reads this`rawText
    {
      rawText
    }

    /** The Text getter: what the label shows. */
    function Text(): (t: string)
      reads this`text
    {
      text
    }

    /**
     * The LinkText setter: keeps the raw text, clears the links and walks
     * the matches left to right, appending the text before each match and
     * its link text to the shown text and adding a link over that link
     * text; then appends the rest of the raw text.
     */
    method SetLinkText(value: string)
      modifies this`rawText, this`text, this`links
      ensures rawText == value
      ensures text == Rendered(value).text && links == Rendered(value).links
    {
      rawText := value;
      links := [];
      var builder := "";
      var pos: nat := 0;
      var rest := Matches(value, 0);
      ghost var shown := Rendered(value);
      while rest != []
        invariant rawText == value
        invariant Chain(value, rest, pos)
        invariant builder + ShownText(value, rest, pos) == shown.text
        invariant links + LinksFrom(value, rest, pos, |builder|) == shown.links
        decreases |rest|
      {
        var m := rest[0];
        TextStep(value, rest, pos, builder, shown.text);
        LinksStep(value, rest, pos, builder, links, shown.links);

        builder := builder + rawText[pos..m.index];
        pos := m.End();
        var startIndex := |builder|;
        builder := builder + m.link;
        links := links + [Link(startIndex, |m.link|, m.url)];
        rest := rest[1..];
      }
      builder := builder + rawText[pos..];
      text := builder;
    }

    /** The Text setter: assigning Text is assigning LinkText. */
    method SetText(value: string)
      modifies this`rawText, this`text, this`links
      ensures LinkText() == value && Text() == Rendered(value).text && links == Rendered(value).links
    {
      SetLinkText(value);
    }
  }

  /**
   * After LinkText is set, the shown text is the raw text without the
   * markup, with one link per match in match order: each over its match's
   * link text and carrying its URL, each starting after the one before
   * ends.
   */
  lemma RenderedLinks(s: string)
    ensures |Rendered(s).links| == |Matches(s, 0)|
    ensures |Rendered(s).text| == |s| - MarkupLength(Matches(s, 0))
    ensures forall i :: 0 <= i < |Matches(s, 0)| ==>
      Rendered(s).links[i].length > 0 && Covers(Rendered(s).text, 0, Rendered(s).links[i], Matches(s, 0)[i])
    ensures forall i :: 0 <= i < |Matches(s, 0)| - 1 ==>
      Rendered(s).links[i].start + Rendered(s).links[i].length <= Rendered(s).links[i + 1].start
  {
    LinkSpans(s, Matches(s, 0), 0, 0);
    LinksOrdered(s, Matches(s, 0), 0, 0);
  }
}
