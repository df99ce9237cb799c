/** The catalogue grid's derived lists (src/components/ContentGrid.tsx): the
    genre choices offered in the genre filter, the visible entries after
    search and filters, the initial type filter read from the query string,
    and the genres handed to the recommender. */
module ContentGrid {
  import opened Types
  import opened Text

  /** The filter value that lets every entry through. */
  const AllFilter := "all"

  /** The three filter inputs of the grid: search box, genre select, type select. */
  datatype Filters = Filters(searchTerm: string, genre: string, contentType: string)

  // ---------------------------------------------------------------------
  // Genres: 'all' followed by the distinct themes in first-seen order.

  function Themes(cs: seq<Content>): (ts: seq<string>)
    ensures |ts| == |cs|
    ensures forall i :: 0 <= i < |cs| ==> ts[i] == cs[i].theme
  {
    seq(|cs|, i requires 0 <= i < |cs| => cs[i].theme)
  }

  predicate NoDuplicates(xs: seq<string>) {
    forall i, j :: 0 <= i < j < |xs| ==> xs[i] != xs[j]
  }

  /** The index of the first occurrence of `x` in `xs`. */
  function FirstIndex(xs: seq<string>, x: string): (k: nat)
    requires x in xs
    ensures k < |xs| && xs[k] == x
    ensures forall j :: 0 <= j < k ==> xs[j] != x
  {
    if xs[0] == x then 0 else 1 + FirstIndex(xs[1..], x)
  }

  /** Where `x` first occurs in a prefix of `xs`, it first occurs in `xs`. */
  lemma FirstIndexInPrefix(xs: seq<string>, n: nat, x: string)
    requires n <= |xs| && x in xs[..n]
    ensures x in xs && FirstIndex(xs, x) == FirstIndex(xs[..n], x)
  {
    var k := FirstIndex(xs[..n], x);
    assert xs[k] == x;
  }

  /** `Array.from(new Set(xs))`: a set keeps insertion order, and inserting an
      element already present changes nothing. */
  function Distinct(xs: seq<string>): (r: seq<string>)
    ensures NoDuplicates(r)
    ensures forall x :: x in r <==> x in xs
    ensures forall i, j :: 0 <= i < j < |r| ==> FirstIndex(xs, r[i]) < FirstIndex(xs, r[j])
  {
    if xs == [] then []
    else
      var n := |xs| - 1;
      var r := Distinct(xs[..n]);
      var x := xs[n];
      assert xs == xs[..n] + [x];
      forall y | y in r ensures FirstIndex(xs, y) == FirstIndex(xs[..n], y) {
        FirstIndexInPrefix(xs, n, y);
      }
      if x in r then r
      else
        assert FirstIndex(xs, x) == n;
        r + [x]
  }

  /** The genre filter's choices. */
  function Genres(cs: seq<Content>): (g: seq<string>)
    ensures |g| >= 1 && g[0] == AllFilter
    ensures forall t :: t in g <==> t == AllFilter || exists c :: c in cs && c.theme == t
  {
    [AllFilter] + Distinct(Themes(cs))
  }

  /** `genres` starts with 'all' and then lists every theme of the catalogue
      exactly once, in the order the themes first appear. */
  lemma GenresShape(cs: seq<Content>)
    ensures var g := Genres(cs);
            |g| >= 1 && g[0] == AllFilter &&
            NoDuplicates(g[1..]) &&
            (forall t :: t in g[1..] <==> exists c :: c in cs && c.theme == t) &&
            (forall i, j :: 1 <= i < j < |g| ==>
               FirstIndex(Themes(cs), g[i]) < FirstIndex(Themes(cs), g[j]))
  {
    var g := Genres(cs);
    var ts := Themes(cs);
    assert g[1..] == Distinct(ts);
    forall t ensures t in g[1..] <==> exists c :: c in cs && c.theme == t {
      if t in ts {
        var i :| 0 <= i < |ts| && ts[i] == t;
        assert cs[i] in cs;
      }
      if exists c :: c in cs && c.theme == t {
        var c :| c in cs && c.theme == t;
        var i :| 0 <= i < |cs| && cs[i] == c;
        assert ts[i] == t;
      }
    }
    forall i, j | 1 <= i < j < |g| ensures FirstIndex(ts, g[i]) < FirstIndex(ts, g[j]) {
      assert g[i] == Distinct(ts)[i - 1] && g[j] == Distinct(ts)[j - 1];
    }
  }

  // ---------------------------------------------------------------------
  // The visible entries.

  predicate MatchesSearch(c: Content, searchTerm: string) {
    Includes(LowerAscii(c.title), LowerAscii(searchTerm))
  }

  predicate MatchesGenre(c: Content, genre: string) {
    genre == AllFilter || c.theme == genre
  }

  predicate MatchesType(c: Content, contentType: string) {
    contentType == AllFilter || TypeName(c.contentType) == contentType
  }

  /** The callback given to `contents.filter`. */
  predicate Keep(c: Content, f: Filters) {
    MatchesSearch(c, f.searchTerm) && MatchesGenre(c, f.genre) && MatchesType(c, f.contentType)
  }

  /** `r` is `s` with some elements left out and the rest in their order. */
  predicate IsSubsequence(r: seq<Content>, s: seq<Content>)
    decreases |s|
  {
    r == [] ||
    (s != [] &&
     ((r[0] == s[0] && IsSubsequence(r[1..], s[1..])) || IsSubsequence(r, s[1..])))
  }

  /** `filteredContents`: the entries that pass all three tests, in catalogue
      order, each kept as often as it occurs. */
  function FilterContents(cs: seq<Content>, f: Filters): (r: seq<Content>)
    ensures IsSubsequence(r, cs)
    ensures forall c :: c in r ==> Keep(c, f)
    ensures forall c :: multiset(r)[c] == if Keep(c, f) then multiset(cs)[c] else 0
  {
    if cs == [] then []
    else
      var rest := FilterContents(cs[1..], f);
      assert cs == [cs[0]] + cs[1..];
      if Keep(cs[0], f) then
        assert ([cs[0]] + rest)[1..] == rest;
        [cs[0]] + rest
      else
        rest
  }

  /** Every entry passes the filter exactly when it is kept: with the
      subsequence property this pins the result down. */
  lemma FilterMembership(cs: seq<Content>, f: Filters, c: Content)
    ensures c in FilterContents(cs, f) <==> c in cs && Keep(c, f)
  {
    var r := FilterContents(cs, f);
    assert c in r <==> multiset(r)[c] > 0;
    assert c in cs <==> multiset(cs)[c] > 0;
  }

  /** An empty search term with both filters on 'all' shows the whole catalogue. */
  lemma {:induction false} NoFilterShowsAll(cs: seq<Content>)
    ensures FilterContents(cs, Filters("", AllFilter, AllFilter)) == cs
  {
    if cs != [] {
      NoFilterShowsAll(cs[1..]);
      assert OccursAt(LowerAscii(cs[0].title), LowerAscii(""), 0);
    }
  }

  /** A narrower filter keeps a subsequence of what a wider one keeps. */
  lemma {:induction false} NarrowerFilterKeepsSubsequence(cs: seq<Content>, wide: Filters, narrow: Filters)
    requires forall c :: Keep(c, narrow) ==> Keep(c, wide)
    ensures IsSubsequence(FilterContents(cs, narrow), FilterContents(cs, wide))
  {
    if cs != [] {
      NarrowerFilterKeepsSubsequence(cs[1..], wide, narrow);
      var n, w := FilterContents(cs[1..], narrow), FilterContents(cs[1..], wide);
      if Keep(cs[0], wide) && !Keep(cs[0], narrow) {
        SubsequenceOfTail(n, cs[0], w);
      }
    }
  }

  lemma {:induction false} SubsequenceOfTail(r: seq<Content>, x: Content, s: seq<Content>)
    requires IsSubsequence(r, s)
    ensures IsSubsequence(r, [x] + s)
  {
    assert ([x] + s)[1..] == s;
  }

  /** Choosing a genre instead of 'all' never adds entries, and every entry
      still shown has that theme. */
  lemma GenreFilterNarrows(cs: seq<Content>, f: Filters, genre: string)
    requires f.genre == AllFilter
    ensures var r := FilterContents(cs, f.(genre := genre));
            IsSubsequence(r, FilterContents(cs, f)) &&
            (genre != AllFilter ==> forall c :: c in r ==> c.theme == genre)
  {
    NarrowerFilterKeepsSubsequence(cs, f, f.(genre := genre));
  }

  /** Choosing a type instead of 'all' never adds entries, and every entry
      still shown has that type. */
  lemma TypeFilterNarrows(cs: seq<Content>, f: Filters, contentType: string)
    requires f.contentType == AllFilter
    ensures var r := FilterContents(cs, f.(contentType := contentType));
            IsSubsequence(r, FilterContents(cs, f)) &&
            (contentType != AllFilter ==> forall c :: c in r ==> TypeName(c.contentType) == contentType)
  {
    NarrowerFilterKeepsSubsequence(cs, f, f.(contentType := contentType));
  }

  /** Search terms that differ only in the case of ASCII letters show the same
      entries; upper-casing the term is one such change. */
  lemma {:induction false} SearchIgnoresCase(cs: seq<Content>, f: Filters, term: string)
    requires LowerAscii(term) == LowerAscii(f.searchTerm)
    ensures FilterContents(cs, f.(searchTerm := term)) == FilterContents(cs, f)
  {
    if cs != [] {
      SearchIgnoresCase(cs[1..], f, term);
    }
  }

  lemma UpperCaseSearchSame(cs: seq<Content>, f: Filters)
    ensures FilterContents(cs, f.(searchTerm := UpperAscii(f.searchTerm))) == FilterContents(cs, f)
  {
    LowerOfUpper(f.searchTerm);
    SearchIgnoresCase(cs, f, UpperAscii(f.searchTerm));
  }

  /** Two entries whose titles differ only in letter case are shown or hidden
      together. */
  lemma TitleCaseIrrelevant(c: Content, f: Filters)
    ensures Keep(c.(title := UpperAscii(c.title)), f) == Keep(c, f)
  {
    LowerOfUpper(c.title);
  }

  /** A type filter that is neither 'all' nor one of the two content types
      matches nothing. */
  lemma UnknownTypeShowsNothing(cs: seq<Content>, f: Filters)
    requires f.contentType != AllFilter && f.contentType != "book" && f.contentType != "audiobook"
    ensures FilterContents(cs, f) == []
  {
    var r := FilterContents(cs, f);
    assert forall c :: !Keep(c, f);
  }

  // ---------------------------------------------------------------------
  // Initial state and the recommender's argument.

  /** `searchParams.get('type') || 'all'`: an absent or empty parameter means 'all'. */
  function InitialTypeFilter(typeParam: Option<string>): (t: string)
    ensures t != ""
    ensures typeParam.Some? && typeParam.value != "" ==> t == typeParam.value
    ensures typeParam.None? || typeParam.value == "" ==> t == AllFilter
  {
    if typeParam.Some? && typeParam.value != "" then typeParam.value else AllFilter
  }

  /** What the grid shows before the user touches the controls. */
  function InitialView(cs: seq<Content>, typeParam: Option<string>): seq<Content> {
    FilterContents(cs, Filters("", AllFilter, InitialTypeFilter(typeParam)))
  }

  /** Without a `type` parameter the whole catalogue is shown; with `?type=book`
      only the books; with an unknown type nothing. */
  lemma InitialViewCases(cs: seq<Content>, typeParam: Option<string>)
    ensures typeParam.None? || typeParam == Some("") ==> InitialView(cs, typeParam) == cs
    ensures typeParam == Some("book") ==>
              forall c :: c in InitialView(cs, typeParam) <==> c in cs && c.contentType == Book
    ensures typeParam.Some? && typeParam.value !in {"", AllFilter, "book", "audiobook"} ==>
              InitialView(cs, typeParam) == []
  {
    var f := Filters("", AllFilter, InitialTypeFilter(typeParam));
    if typeParam.None? || typeParam == Some("") {
      NoFilterShowsAll(cs);
    }
    if typeParam == Some("book") {
      forall c ensures c in InitialView(cs, typeParam) <==> c in cs && c.contentType == Book {
        FilterMembership(cs, f, c);
        assert OccursAt(LowerAscii(c.title), LowerAscii(""), 0);
      }
    }
    if typeParam.Some? && typeParam.value !in {"", AllFilter, "book", "audiobook"} {
      UnknownTypeShowsNothing(cs, f);
    }
  }

  /** `currentGenres` for the recommender: nothing under 'all', otherwise the
      one selected genre. */
  function RecommenderGenres(genre: string): (r: seq<string>)
    ensures r == [] <==> genre == AllFilter
    ensures forall g :: g in r ==> g == genre && g != AllFilter
    ensures |r| <= 1
  {
    if genre == AllFilter then [] else [genre]
  }
}
