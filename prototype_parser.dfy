/**
 * The prototype stopcorona scraper (`etl/utils/Parser/main.py`). Its four
 * lists are class attributes, so every instance reads and extends the same
 * lists; its dictionary is a class attribute too, but each `set_dict`
 * replaces it by a fresh per-instance one before anything reads it. The
 * model keeps that state in one object, created once, on which each
 * instance's `__init__` runs (`Init`). A
 * bulletin page arrives already fetched, as the heading's date matches and
 * the table cells' markup.
 */
module PrototypeParser {
  import opened Common
  import opened PyStr
  import StopcoronaParser

  /** One region's figures: each of the four header names mapped to the row's value under it. */
  type Row = map<string, string>

  /** The figures of one bulletin, by region name. */
  type Summary = map<string, Row>

  /** A fetched bulletin: the date-range matches in its heading and the markup of every table cell. */
  datatype Article = Article(matches: seq<string>, cells: seq<string>)

  /** The class-level state shared by every instance, apart from `url_list`. */
  datatype Lists = Lists(dataStart: seq<string>, dataEnd: seq<string>, dictionaryList: seq<Summary>, dictionary: Summary)

  /** The state after a call, and the exception it let escape, if any. */
  datatype Outcome = Outcome(state: Lists, raised: Option<Exception>)

  /** The site root that the listed links are relative to. */
  const Domain: string := "https://xn--90aivcdt6dxbc.xn--p1ai/"

  /* ---------------------------------------------------------------------
   * `set_url_list`: removing from the list while iterating over it
   * ------------------------------------------------------------------- */

  /** The position of the first element equal to `x`. */
  function IndexOf(l: seq<string>, x: string): (j: nat)
    requires x in l
    ensures j < |l| && l[j] == x
    ensures forall k :: 0 <= k < j ==> l[k] != x
  {
    if l[0] == x then 0
    else
      assert x in l[1..] by {
        var k :| 0 <= k < |l| && l[k] == x;
        assert l[1..][k - 1] == x;
      }
      1 + IndexOf(l[1..], x)
  }

  /** `list.remove(x)`: the first element equal to `x` is taken out, the others keep their order. */
  function RemoveFirst(l: seq<string>, x: string): (r: seq<string>)
    requires x in l
    ensures |r| == |l| - 1
  {
    var j := IndexOf(l, x);
    l[..j] + l[j + 1..]
  }

  /**
   * The `for elem in self.url_list` loop with its `remove`: a list
   * iterator reads position `i` and moves to `i + 1`, while each removal
   * shifts every later element one place forward.
   */
  function Sweep(l: seq<string>, i: nat): (r: seq<string>)
    decreases |l| - i
  {
    if i >= |l| then l
    else if StopcoronaParser.IsArticle(l[i]) then Sweep(l, i + 1)
    else Sweep(RemoveFirst(l, l[i]), i + 1)
  }

  /** Removing a link that is not an article loses no article and reorders none. */
  lemma {:induction false} RemoveFirstKeepsArticles(l: seq<string>, x: string)
    requires x in l && !StopcoronaParser.IsArticle(x)
    ensures Filter(RemoveFirst(l, x), StopcoronaParser.IsArticle) == Filter(l, StopcoronaParser.IsArticle)
  {
    var j := IndexOf(l, x);
    assert l == l[..j] + [x] + l[j + 1..];
    FilterSkip(l[..j], x, l[j + 1..], StopcoronaParser.IsArticle);
  }

  /** The sweep keeps every article, in order: only the non-articles are at stake. */
  lemma {:induction false} SweepKeepsArticles(l: seq<string>, i: nat)
    ensures Filter(Sweep(l, i), StopcoronaParser.IsArticle) == Filter(l, StopcoronaParser.IsArticle)
    decreases |l| - i
  {
    if i < |l| {
      if StopcoronaParser.IsArticle(l[i]) {
        SweepKeepsArticles(l, i + 1);
      } else {
        RemoveFirstKeepsArticles(l, l[i]);
        SweepKeepsArticles(RemoveFirst(l, l[i]), i + 1);
      }
    }
  }

  /**
   * Two different links, neither an article: the first is removed, the
   * second moves into the inspected slot and is never looked at, so a
   * non-article survives.
   */
  lemma AdjacentNonArticleSurvives(a: string, b: string)
    requires !StopcoronaParser.IsArticle(a) && !StopcoronaParser.IsArticle(b) && a != b
    ensures Sweep([a, b], 0) == [b]
    ensures exists k :: 0 <= k < |Sweep([a, b], 0)| && !StopcoronaParser.IsArticle(Sweep([a, b], 0)[k])
  {
    assert IndexOf([a, b], a) == 0;
    assert RemoveFirst([a, b], a) == [b];
    assert Sweep([b], 1) == [b];
    assert !StopcoronaParser.IsArticle(Sweep([a, b], 0)[0]);
  }

  /* ---------------------------------------------------------------------
   * `clearing`: markup removed from every cell
   * ------------------------------------------------------------------- */

  /**
   * Where the tag opened just before `j` closes: the first `>` from `j`
   * on, provided no line break comes first (`.` in `<.*?>` does not
   * match a newline).
   */
  function TagEnd(s: string, j: nat): (r: Option<nat>)
    ensures r.Some? ==> j <= r.value < |s| && s[r.value] == '>'
    decreases |s| - j
  {
    if j >= |s| then None
    else if s[j] == '>' then Some(j)
    else if s[j] == '\n' then None
    else TagEnd(s, j + 1)
  }

  /** `re.sub('<.*?>', '', s)`: each `<` that starts a tag on its line is removed up to its `>`. */
  function StripTags(s: string): (r: string)
    ensures |r| <= |s|
    decreases |s|
  {
    if s == [] then []
    else if s[0] == '<' && TagEnd(s, 1).Some? then StripTags(s[TagEnd(s, 1).value + 1..])
    else [s[0]] + StripTags(s[1..])
  }

  /** `re.sub(c, '', s)` for one character: every occurrence of `c` is dropped. */
  function Drop(s: string, c: char): (r: string)
    ensures c !in r
    ensures forall x :: x in r ==> x in s
  {
    if s == [] then [] else (if s[0] == c then [] else [s[0]]) + Drop(s[1..], c)
  }

  /** One cell as `clearing` leaves it: tags removed, then every newline, tab and carriage return. */
  function Scrub(s: string): (r: string)
    ensures '\n' !in r && '\t' !in r && '\r' !in r
  {
    Drop(Drop(Drop(StripTags(s), '\n'), '\t'), '\r')
  }

  /** Text before the first `<` is kept as it is. */
  lemma {:induction false} StripTagsPrefix(a: string, s: string)
    requires '<' !in a
    ensures StripTags(a + s) == a + StripTags(s)
  {
    if a != [] {
      assert (a + s)[0] == a[0];
      assert (a + s)[1..] == a[1..] + s;
      StripTagsPrefix(a[1..], s);
      assert a == [a[0]] + a[1..];
    } else {
      assert a + s == s;
    }
  }

  /** A tag `<t>` whose name holds no `>` and no line break is removed whole. */
  lemma TagRemoved(t: string, s: string)
    requires '>' !in t && '\n' !in t
    ensures StripTags("<" + t + ">" + s) == StripTags(s)
  {
    var w := "<" + t + ">" + s;
    TagEndAfter(w, t, 1);
    assert w[|t| + 2..] == s;
  }

  /** The tag opened at the start of `"<" + t + ">" + ...` closes right after `t`. */
  lemma {:induction false} TagEndAfter(w: string, t: string, j: nat)
    requires 1 <= j <= |t| + 1 && |t| + 1 < |w| && w[|t| + 1] == '>'
    requires forall k :: j <= k < |t| + 1 ==> w[k] != '>' && w[k] != '\n'
    ensures TagEnd(w, j) == Some(|t| + 1)
    decreases |t| + 1 - j
  {
    if j < |t| + 1 {
      TagEndAfter(w, t, j + 1);
    }
  }

  /** Dropping a character that does not occur changes nothing. */
  lemma {:induction false} DropAbsent(s: string, c: char)
    requires c !in s
    ensures Drop(s, c) == s
  {
    if s != [] {
      DropAbsent(s[1..], c);
      assert s == [s[0]] + s[1..];
    }
  }

  /** Plain text, without markup or control characters, is a fixed point of the cleaning. */
  lemma ScrubPlain(s: string)
    requires '<' !in s && '\n' !in s && '\t' !in s && '\r' !in s
    ensures Scrub(s) == s
  {
    StripTagsPrefix(s, "");
    assert s + "" == s;
    DropAbsent(s, '\n');
    DropAbsent(s, '\t');
    DropAbsent(s, '\r');
  }

  /** A cell `<td>text</td>` loses both tags. */
  lemma CellTags(open: string, text: string, close: string)
    requires '>' !in open && '\n' !in open && '>' !in close && '\n' !in close && '<' !in text
    ensures StripTags("<" + open + ">" + text + "<" + close + ">") == text
  {
    var head, tail := "<" + open + ">", "<" + close + ">";
    var rest := text + tail;
    assert "<" + open + ">" + text + "<" + close + ">" == head + rest;
    TagRemoved(open, rest);
    StripTagsPrefix(text, tail);
    TagRemoved(close, "");
    assert tail + "" == tail;
    assert StripTags(tail) == "";
    assert text + "" == text;
  }

  /** A cell `<td>text</td>` comes out as its text. */
  lemma ScrubCell(open: string, text: string, close: string)
    requires '>' !in open && '\n' !in open && '>' !in close && '\n' !in close
    requires '<' !in text && '\n' !in text && '\t' !in text && '\r' !in text
    ensures Scrub("<" + open + ">" + text + "<" + close + ">") == text
  {
    CellTags(open, text, close);
    DropAbsent(text, '\n');
    DropAbsent(text, '\t');
    DropAbsent(text, '\r');
  }

  /** The cells after `clearing`. */
  function Scrubbed(cells: seq<string>): (r: seq<string>)
    ensures |r| == |cells| && forall i :: 0 <= i < |r| ==> r[i] == Scrub(cells[i])
  {
    seq(|cells|, i requires 0 <= i < |cells| => Scrub(cells[i]))
  }

  /**
   * `clearing`: every slot of `td` is rewritten with its cleaned text (the
   * `str` pass is the identity on cells given as markup), and the same
   * list is returned.
   */
  method Clearing(td: array<string>) returns (r: array<string>)
    modifies td
    ensures r == td
    ensures td[..] == Scrubbed(old(td[..]))
  {
    var i := 0;
    while i < td.Length
      invariant 0 <= i <= td.Length
      invariant forall k :: 0 <= k < i ==> td[k] == Scrub(old(td[k]))
      invariant forall k :: i <= k < td.Length ==> td[k] == old(td[k])
    {
      var cell := StripTags(td[i]);
      cell := Drop(cell, '\n');
      cell := Drop(cell, '\t');
      cell := Drop(cell, '\r');
      td[i] := cell;
      i := i + 1;
    }
    r := td;
  }

  /* ---------------------------------------------------------------------
   * `set_dict`: one region per five cells
   * ------------------------------------------------------------------- */

  /** The row starting at cell `i`: the four header names of cells 1 to 4, each mapped to the next four cells. */
  function RowAt(td: seq<string>, i: nat): Row
    requires 5 <= |td| && i + 4 < |td|
  {
    map[td[1] := td[i + 1]][td[2] := td[i + 2]][td[3] := td[i + 3]][td[4] := td[i + 4]]
  }

  /** The dictionary after the first `n` region rows (cells 5, 10, ...): each region's row, a later one replacing an earlier. */
  function RegionTable(td: seq<string>, n: nat): (t: Summary)
    requires 5 <= |td| && 5 * n + 4 < |td|
    ensures forall k :: 1 <= k <= n ==> td[5 * k] in t
  {
    if n == 0 then map[] else RegionTable(td, n - 1)[td[5 * n] := RowAt(td, 5 * n)]
  }

  /** With distinct header names, a row maps each name to the value below it. */
  lemma RowFields(td: seq<string>, i: nat)
    requires 5 <= |td| && i + 4 < |td|
    requires td[1] != td[2] && td[1] != td[3] && td[1] != td[4] && td[2] != td[3] && td[2] != td[4] && td[3] != td[4]
    ensures RowAt(td, i).Keys == {td[1], td[2], td[3], td[4]}
    ensures forall m :: 1 <= m <= 4 ==> RowAt(td, i)[td[m]] == td[i + m]
  {
  }

  /** The dictionary's keys are exactly the region cells read. */
  lemma {:induction false} RegionTableKeys(td: seq<string>, n: nat)
    requires 5 <= |td| && 5 * n + 4 < |td|
    ensures forall region :: region in RegionTable(td, n) <==> exists k :: 1 <= k <= n && td[5 * k] == region
  {
    if n > 0 {
      RegionTableKeys(td, n - 1);
      forall region | region in RegionTable(td, n)
        ensures exists k :: 1 <= k <= n && td[5 * k] == region
      {
        if region != td[5 * n] {
          assert region in RegionTable(td, n - 1);
          var k :| 1 <= k <= n - 1 && td[5 * k] == region;
        }
      }
    }
  }

  /** A region's entry is its last row: a row that no later row of the same region follows is the one kept. */
  lemma {:induction false} RegionTableLastRow(td: seq<string>, n: nat, k: nat)
    requires 5 <= |td| && 5 * n + 4 < |td|
    requires 1 <= k <= n
    requires forall j :: k < j <= n ==> td[5 * j] != td[5 * k]
    ensures RegionTable(td, n)[td[5 * k]] == RowAt(td, 5 * k)
  {
    if k < n {
      RegionTableLastRow(td, n - 1, k);
    }
  }

  /**
   * `set_dict` on the state: cells 1 to 4 are read first (IndexError on
   * fewer than five cells, nothing changed); then the dictionary is
   * emptied and filled row by row, and a trailing partial row raises
   * IndexError with the complete rows already in it. Only a call that
   * does not raise appends the dictionary to `dictionary_list`.
   */
  function DictStep(st: Lists, td: seq<string>): (o: Outcome)
    ensures o.raised.None? <==> 5 <= |td| && |td| % 5 == 0
    ensures o.raised.Some? ==> o.raised.value == IndexError && o.state.dictionaryList == st.dictionaryList
    ensures o.raised.None? ==> o.state.dictionaryList == st.dictionaryList + [o.state.dictionary]
    ensures 5 <= |td| ==> o.state.dictionary == RegionTable(td, |td| / 5 - 1)
    ensures o.state.dataStart == st.dataStart && o.state.dataEnd == st.dataEnd
  {
    if |td| < 5 then Outcome(st, Some(IndexError))
    else
      var d := RegionTable(td, |td| / 5 - 1);
      if |td| % 5 != 0 then Outcome(st.(dictionary := d), Some(IndexError))
      else Outcome(st.(dictionary := d, dictionaryList := st.dictionaryList + [d]), None)
  }

  /* ---------------------------------------------------------------------
   * `set_data`: the heading's two dates
   * ------------------------------------------------------------------- */

  /**
   * `set_data` on the state: the first match, split on hyphens, gives the
   * start, appended at once, and then the end. No match raises IndexError
   * with nothing changed; a match without a hyphen raises IndexError
   * after the start was appended, leaving the two lists out of step.
   */
  function DataStep(st: Lists, matches: seq<string>): (o: Outcome)
    ensures o.raised.None? <==> matches != [] && |Split(matches[0], {'-'})| >= 2
    ensures o.raised.Some? ==> o.raised.value == IndexError
    ensures matches == [] ==> o.state == st
    ensures matches != [] ==> o.state.dataStart == st.dataStart + [Split(matches[0], {'-'})[0]]
    ensures o.raised.None? ==> o.state.dataEnd == st.dataEnd + [Split(matches[0], {'-'})[1]]
    ensures o.raised.Some? ==> o.state.dataEnd == st.dataEnd
    ensures o.state.dictionaryList == st.dictionaryList && o.state.dictionary == st.dictionary
  {
    if matches == [] then Outcome(st, Some(IndexError))
    else
      var dates := Split(matches[0], {'-'});
      var started := st.(dataStart := st.dataStart + [dates[0]]);
      if |dates| < 2 then Outcome(started, Some(IndexError))
      else Outcome(started.(dataEnd := st.dataEnd + [dates[1]]), None)
  }

  /** One article of `parser_url_list`: its dates, then its cleaned cells; the first exception ends it. */
  function PageStep(st: Lists, page: Article): Outcome
  {
    var o := DataStep(st, page.matches);
    if o.raised.Some? then o else DictStep(o.state, Scrubbed(page.cells))
  }

  /** `parser_url_list` as a value: the articles in list order until one raises. */
  function Walk(st: Lists, urls: seq<string>, fetch: string -> Article): Outcome
    decreases |urls|
  {
    if urls == [] then Outcome(st, None)
    else
      var o := Walk(st, urls[..|urls| - 1], fetch);
      if o.raised.Some? then o else PageStep(o.state, fetch(Domain + urls[|urls| - 1]))
  }

  /** The walk over one more article: its page is parsed unless an earlier one raised. */
  lemma WalkStep(st: Lists, urls: seq<string>, fetch: string -> Article, i: nat)
    requires i < |urls|
    ensures Walk(st, urls[..i + 1], fetch) ==
      var o := Walk(st, urls[..i], fetch);
      if o.raised.Some? then o else PageStep(o.state, fetch(Domain + urls[i]))
  {
    assert urls[..i + 1][..i] == urls[..i];
  }

  /** Once an article raises, the later ones are never read. */
  lemma {:induction false} WalkStops(st: Lists, urls: seq<string>, fetch: string -> Article, i: nat)
    requires i <= |urls| && Walk(st, urls[..i], fetch).raised.Some?
    ensures Walk(st, urls, fetch) == Walk(st, urls[..i], fetch)
    decreases |urls| - i
  {
    if i < |urls| {
      assert urls[..i + 1][..i] == urls[..i];
      WalkStops(st, urls, fetch, i + 1);
    } else {
      assert urls[..i] == urls;
    }
  }

  /** A walk that raises nothing adds exactly one start, one end and one dictionary per article. */
  lemma {:induction false} WalkLengths(st: Lists, urls: seq<string>, fetch: string -> Article)
    requires Walk(st, urls, fetch).raised.None?
    ensures var s := Walk(st, urls, fetch).state;
      |s.dataStart| == |st.dataStart| + |urls| && |s.dataEnd| == |st.dataEnd| + |urls|
      && |s.dictionaryList| == |st.dictionaryList| + |urls|
    decreases |urls|
  {
    if urls != [] {
      WalkLengths(st, urls[..|urls| - 1], fetch);
    }
  }

  /** `zip(data_start, data_end, dictionary_list)`: as many triples as the shortest list has entries. */
  function Zip3(starts: seq<string>, ends: seq<string>, dicts: seq<Summary>): (r: seq<(string, string, Summary)>)
    ensures |r| == if |starts| <= |ends| && |starts| <= |dicts| then |starts| else if |ends| <= |dicts| then |ends| else |dicts|
    ensures forall k :: 0 <= k < |r| ==> r[k] == (starts[k], ends[k], dicts[k])
  {
    var n := if |starts| <= |ends| && |starts| <= |dicts| then |starts| else if |ends| <= |dicts| then |ends| else |dicts|;
    seq(n, k requires 0 <= k < n => (starts[k], ends[k], dicts[k]))
  }

  /**
   * Starting from lists in step, a walk that raises nothing leaves them in
   * step: the summary gains one triple per article.
   */
  lemma WalkSummary(st: Lists, urls: seq<string>, fetch: string -> Article)
    requires |st.dataStart| == |st.dataEnd| == |st.dictionaryList|
    requires Walk(st, urls, fetch).raised.None?
    ensures var s := Walk(st, urls, fetch).state;
      |Zip3(s.dataStart, s.dataEnd, s.dictionaryList)| == |Zip3(st.dataStart, st.dataEnd, st.dictionaryList)| + |urls|
  {
    WalkLengths(st, urls, fetch);
  }

  /* ---------------------------------------------------------------------
   * The parser object
   * ------------------------------------------------------------------- */

  /** `Parser`'s class attributes: one object, read and extended by every instance. */
  class Parser {
    var dataStart: seq<string>
    var dataEnd: seq<string>
    var urlList: seq<string>
    var dictionaryList: seq<Summary>
    var dictionary: Summary

    /** The class body: every list empty, the dictionary empty. */
    constructor ()
      ensures dataStart == [] && dataEnd == [] && urlList == [] && dictionaryList == [] && dictionary == map[]
    {
      dataStart, dataEnd, urlList, dictionaryList, dictionary := [], [], [], [], map[];
    }

    /** The shared state apart from the link list. */
    function Snapshot(): Lists
      reads this
    {
      Lists(dataStart, dataEnd, dictionaryList, dictionary)
    }

    /**
     * `set_url_list` as written: the listing's links are appended to the
     * shared list, then every inspected link that is not an article is
     * removed while the list is being iterated.
     */
    method SetUrlList(hrefs: seq<string>)
      modifies this
      ensures urlList == Sweep(old(urlList) + hrefs, 0)
      ensures Snapshot() == old(Snapshot())
    {
      var j := 0;
      while j < |hrefs|
        invariant 0 <= j <= |hrefs|
        invariant urlList == old(urlList) + hrefs[..j]
        invariant Snapshot() == old(Snapshot())
      {
        urlList := urlList + [hrefs[j]];
        j := j + 1;
      }
      assert hrefs[..j] == hrefs;
      var i := 0;
      while i < |urlList|
        invariant i <= |urlList| + 1
        invariant Sweep(urlList, i) == Sweep(old(urlList) + hrefs, 0)
        invariant Snapshot() == old(Snapshot())
        decreases |urlList| + 1 - i
      {
        var elem := urlList[i];
        i := i + 1;
        if !StopcoronaParser.IsArticle(elem) {
          urlList := RemoveFirst(urlList, elem);
        }
      }
    }

    /** `set_url_list` as intended: the shared list extended with the listing's links, keeping only articles. */
    method SetUrlListIntended(hrefs: seq<string>)
      modifies this
      ensures urlList == Filter(old(urlList) + hrefs, StopcoronaParser.IsArticle)
      ensures Snapshot() == old(Snapshot())
    {
      var all := urlList + hrefs;
      var kept: seq<string> := [];
      var i := 0;
      while i < |all|
        invariant 0 <= i <= |all|
        invariant kept == Filter(all[..i], StopcoronaParser.IsArticle)
        invariant Snapshot() == old(Snapshot())
      {
        FilterSnoc(all, i, StopcoronaParser.IsArticle);
        if StopcoronaParser.IsArticle(all[i]) {
          kept := kept + [all[i]];
        }
        i := i + 1;
      }
      assert all[..i] == all;
      urlList := kept;
    }

    /** `set_dict`. */
    method SetDict(td: seq<string>) returns (raised: Option<Exception>)
      modifies this
      ensures Snapshot() == DictStep(old(Snapshot()), td).state && raised == DictStep(old(Snapshot()), td).raised
      ensures urlList == old(urlList)
    {
      if |td| < 5 {
        return Some(IndexError);
      }
      var hospitalized, recovered, revealed, died := td[1], td[2], td[3], td[4];
      dictionary := map[];
      var i := 5;
      ghost var n := 0;
      while i < |td|
        invariant i == 5 * n + 5 && 5 * n + 4 < |td|
        invariant dictionary == RegionTable(td, n)
        invariant dataStart == old(dataStart) && dataEnd == old(dataEnd)
        invariant dictionaryList == old(dictionaryList) && urlList == old(urlList)
      {
        if i + 4 >= |td| {
          assert |td| / 5 - 1 == n;
          return Some(IndexError);
        }
        dictionary := dictionary[td[i] := map[hospitalized := td[i + 1]][recovered := td[i + 2]][revealed := td[i + 3]][died := td[i + 4]]];
        i, n := i + 5, n + 1;
      }
      assert |td| / 5 - 1 == n;
      dictionaryList := dictionaryList + [dictionary];
      return None;
    }

    /** `set_data`, on the heading's matches. */
    method SetData(matches: seq<string>) returns (raised: Option<Exception>)
      modifies this
      ensures Snapshot() == DataStep(old(Snapshot()), matches).state && raised == DataStep(old(Snapshot()), matches).raised
      ensures urlList == old(urlList)
    {
      if matches == [] {
        return Some(IndexError);
      }
      var dates := Split(matches[0], {'-'});
      dataStart := dataStart + [dates[0]];
      if |dates| < 2 {
        return Some(IndexError);
      }
      dataEnd := dataEnd + [dates[1]];
      return None;
    }

    /** `parser_url_list`: every listed article in turn, its dates, then its cleaned table. */
    method ParserUrlList(fetch: string -> Article) returns (raised: Option<Exception>)
      modifies this
      ensures Snapshot() == Walk(old(Snapshot()), old(urlList), fetch).state
      ensures raised == Walk(old(Snapshot()), old(urlList), fetch).raised
      ensures urlList == old(urlList)
    {
      var i := 0;
      while i < |urlList|
        invariant 0 <= i <= |urlList| && urlList == old(urlList)
        invariant Walk(old(Snapshot()), urlList[..i], fetch) == Outcome(Snapshot(), None)
      {
        ghost var before := Snapshot();
        WalkStep(old(Snapshot()), urlList, fetch, i);
        var page := fetch(Domain + urlList[i]);
        raised := SetData(page.matches);
        if raised.Some? {
          assert Outcome(Snapshot(), raised) == PageStep(before, page);
          WalkStops(old(Snapshot()), urlList, fetch, i + 1);
          return;
        }
        ghost var dated := Snapshot();
        var td := new string[|page.cells|](k requires 0 <= k < |page.cells| => page.cells[k]);
        assert td[..] == page.cells;
        td := Clearing(td);
        assert Snapshot() == dated;
        raised := SetDict(td[..]);
        assert Outcome(Snapshot(), raised) == PageStep(before, page);
        if raised.Some? {
          WalkStops(old(Snapshot()), urlList, fetch, i + 1);
          return;
        }
        i := i + 1;
      }
      assert urlList[..i] == urlList;
      return None;
    }

    /**
     * `__init__`, run by each new instance on the shared state: the
     * listing's links are added by the sweep as written (every article
     * kept, in order, though a non-article may survive) and every listed
     * link is parsed again.
     */
    method Init(hrefs: seq<string>, fetch: string -> Article) returns (raised: Option<Exception>)
      modifies this
      ensures urlList == Sweep(old(urlList) + hrefs, 0)
      ensures Filter(urlList, StopcoronaParser.IsArticle) == Filter(old(urlList) + hrefs, StopcoronaParser.IsArticle)
      ensures Snapshot() == Walk(old(Snapshot()), urlList, fetch).state
      ensures raised == Walk(old(Snapshot()), urlList, fetch).raised
    {
      ghost var listed := urlList + hrefs;
      SetUrlList(hrefs);
      SweepKeepsArticles(listed, 0);
      raised := ParserUrlList(fetch);
    }

    /** `__init__` with `set_url_list` as intended: only the articles are listed and parsed. */
    method InitIntended(hrefs: seq<string>, fetch: string -> Article) returns (raised: Option<Exception>)
      modifies this
      ensures urlList == Filter(old(urlList) + hrefs, StopcoronaParser.IsArticle)
      ensures Snapshot() == Walk(old(Snapshot()), urlList, fetch).state
      ensures raised == Walk(old(Snapshot()), urlList, fetch).raised
    {
      SetUrlListIntended(hrefs);
      raised := ParserUrlList(fetch);
    }

    /** `get_summary_all`: the (start, end, dictionary) triples, as many as the shortest list allows. */
    function GetSummaryAll(): (r: seq<(string, string, Summary)>)
      reads this
      ensures |r| <= |dataStart| && |r| <= |dataEnd| && |r| <= |dictionaryList|
      ensures |r| == |dataStart| || |r| == |dataEnd| || |r| == |dictionaryList|
      ensures forall k :: 0 <= k < |r| ==> r[k] == (dataStart[k], dataEnd[k], dictionaryList[k])
    {
      Zip3(dataStart, dataEnd, dictionaryList)
    }

    /** `get_summary_past`: the first start, end and dictionary; IndexError while any list is empty. */
    function GetSummaryPast(): (r: Parsed<(string, string, Summary)>)
      reads this
      ensures r.Raises? <==> dataStart == [] || dataEnd == [] || dictionaryList == []
      ensures r.Raises? ==> r.error == IndexError
      ensures r.Returns? ==> GetSummaryAll() != [] && r.value == GetSummaryAll()[0]
    {
      if dataStart == [] || dataEnd == [] || dictionaryList == [] then Raises(IndexError)
      else Returns((dataStart[0], dataEnd[0], dictionaryList[0]))
    }

    /**
     * `__getattr__`: four definitions share the name, so only the last is
     * in effect, and any missing attribute, whatever its name, reads
     * `data_end`.
     */
    function GetAttr(name: string): (r: seq<string>)
      reads this
      ensures r == dataEnd
    {
      dataEnd
    }
  }
}
