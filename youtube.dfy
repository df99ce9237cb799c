/** The video-lesson page's YouTube id extraction and player URL
    (src/app/aulas/page.tsx). The source matches the URL against
      ^.*(youtu.be\/|v\/|u\/\w\/|embed\/|watch\?v=|\&v=)([^#\&\?]*).*
    and accepts the second group when it is exactly 11 characters long. Here
    that match is an explicit scan:
    - the greedy `^.*` makes the engine try the marker at the LAST position
      first, and `.` stops at the first line terminator, so the marker used is
      the rightmost one that starts within the first line;
    - the alternatives begin with different characters, so at most one of
      them matches at a position;
    - `[^#&?]*` is greedy and what follows it (`.*`, no end anchor) always
      matches, so the group is the longest run of characters other than
      `#`, `&` and `?` after the marker (a negated class also crosses line
      terminators). */
module YouTube {
  import opened Types
  import opened Text

  const IdLength := 11

  predicate IsWordChar(c: char) {
    ('a' <= c <= 'z') || ('A' <= c <= 'Z') || ('0' <= c <= '9') || c == '_'
  }

  /** The characters `[^#\&\?]` refuses. */
  predicate EndsRun(c: char) {
    c == '#' || c == '&' || c == '?'
  }

  predicate CharAt(s: string, i: nat, c: char) {
    i < |s| && s[i] == c
  }

  /** The length of the marker alternative that matches at `i`, tried in the
      pattern's order; 0 when none matches. Every marker is one line and ends
      in `/` or `=`. */
  function MarkerLength(s: string, i: nat): (m: nat)
    ensures m == 0 || m == 2 || m == 3 || m == 4 || m == 6 || m == 8 || m == 9
    ensures m > 0 ==> i + m <= |s| && (s[i + m - 1] == '/' || s[i + m - 1] == '=')
    ensures m > 0 ==> forall j :: i <= j < i + m ==> !IsLineTerminator(s[j])
  {
    if CharAt(s, i, 'y') && CharAt(s, i + 1, 'o') && CharAt(s, i + 2, 'u') && CharAt(s, i + 3, 't')
       && CharAt(s, i + 4, 'u') && i + 5 < |s| && !IsLineTerminator(s[i + 5])
       && CharAt(s, i + 6, 'b') && CharAt(s, i + 7, 'e') && CharAt(s, i + 8, '/') then
      9  // youtu.be/
    else if CharAt(s, i, 'v') && CharAt(s, i + 1, '/') then
      2  // v/
    else if CharAt(s, i, 'u') && CharAt(s, i + 1, '/') && i + 2 < |s| && IsWordChar(s[i + 2])
       && CharAt(s, i + 3, '/') then
      4  // u/\w/
    else if CharAt(s, i, 'e') && CharAt(s, i + 1, 'm') && CharAt(s, i + 2, 'b') && CharAt(s, i + 3, 'e')
       && CharAt(s, i + 4, 'd') && CharAt(s, i + 5, '/') then
      6  // embed/
    else if CharAt(s, i, 'w') && CharAt(s, i + 1, 'a') && CharAt(s, i + 2, 't') && CharAt(s, i + 3, 'c')
       && CharAt(s, i + 4, 'h') && CharAt(s, i + 5, '?') && CharAt(s, i + 6, 'v') && CharAt(s, i + 7, '=') then
      8  // watch?v=
    else if CharAt(s, i, '&') && CharAt(s, i + 1, 'v') && CharAt(s, i + 2, '=') then
      3  // &v=
    else
      0
  }

  /** A marker can only start with one of these characters. */
  predicate MayStartMarker(c: char) {
    c == 'y' || c == 'v' || c == 'u' || c == 'e' || c == 'w' || c == '&'
  }

  lemma MarkerStart(s: string, i: nat)
    requires MarkerLength(s, i) > 0
    ensures i < |s| && MayStartMarker(s[i])
  {
  }

  /** Whether a marker matches depends only on the characters it covers. */
  lemma MarkerIsLocal(s: string, i: nat, t: string, j: nat)
    requires MarkerLength(s, i) > 0
    requires j + MarkerLength(s, i) <= |t|
    requires forall x :: i <= x < i + MarkerLength(s, i) ==> t[j + (x - i)] == s[x]
    ensures MarkerLength(t, j) == MarkerLength(s, i)
  {
  }

  /** Index of the first line terminator, or the length: the farthest `^.*`
      can reach. */
  function LineEnd(s: string): (e: nat)
    ensures e <= |s|
    ensures forall j :: 0 <= j < e ==> !IsLineTerminator(s[j])
    ensures e < |s| ==> IsLineTerminator(s[e])
  {
    if s == [] || IsLineTerminator(s[0]) then 0
    else
      var e := 1 + LineEnd(s[1..]);
      assert forall j :: 1 <= j < e ==> s[j] == s[1..][j - 1];
      e
  }

  lemma WithinFirstLine(s: string, x: nat)
    requires x <= |s|
    requires forall j :: 0 <= j < x ==> !IsLineTerminator(s[j])
    ensures x <= LineEnd(s)
  {
  }

  lemma WholeLine(s: string)
    requires NoLineTerminator(s)
    ensures LineEnd(s) == |s|
  {
    WithinFirstLine(s, |s|);
  }

  /** The rightmost marker position at or before `i`. */
  function LastMarker(s: string, i: nat): (r: Option<nat>)
    ensures r.Some? ==> r.value <= i && MarkerLength(s, r.value) > 0
    ensures r.Some? ==> forall j :: r.value < j <= i ==> MarkerLength(s, j) == 0
    ensures r.None? ==> forall j :: 0 <= j <= i ==> MarkerLength(s, j) == 0
    decreases i
  {
    if MarkerLength(s, i) > 0 then Some(i)
    else if i == 0 then None
    else LastMarker(s, i - 1)
  }

  /** The end of the longest run of characters other than `#`, `&`, `?` from `k`. */
  function RunEnd(s: string, k: nat): (e: nat)
    requires k <= |s|
    ensures k <= e <= |s|
    ensures forall j :: k <= j < e ==> !EndsRun(s[j])
    ensures e < |s| ==> EndsRun(s[e])
    decreases |s| - k
  {
    if k == |s| || EndsRun(s[k]) then k else RunEnd(s, k + 1)
  }

  /** The pattern's second group when the marker ends at `k`. */
  function IdRun(s: string, k: nat): string
    requires k <= |s|
  {
    s[k..RunEnd(s, k)]
  }

  /** `p` is where the match puts the marker. */
  predicate IsRightmostMarker(s: string, p: nat) {
    p <= LineEnd(s) && MarkerLength(s, p) > 0 &&
    forall j :: p < j <= LineEnd(s) ==> MarkerLength(s, j) == 0
  }

  /** What the extraction accepts for marker position `p`. */
  function AcceptRun(s: string, p: nat): Option<string>
    requires MarkerLength(s, p) > 0
  {
    var id := IdRun(s, p + MarkerLength(s, p));
    if |id| == IdLength then Some(id) else None
  }

  /** `getYouTubeVideoId(url)`. */
  function VideoId(url: string): (r: Option<string>)
    ensures r.Some? ==> |r.value| == IdLength
    ensures r.Some? ==> forall j :: 0 <= j < |r.value| ==> !EndsRun(r.value[j])
    ensures forall p :: IsRightmostMarker(url, p) ==> r == AcceptRun(url, p)
    ensures (forall p :: 0 <= p <= LineEnd(url) ==> MarkerLength(url, p) == 0) ==> r.None?
  {
    match LastMarker(url, LineEnd(url))
    case None => None
    case Some(p) =>
      assert IsRightmostMarker(url, p);
      assert forall q: nat :: IsRightmostMarker(url, q) ==> q == p;
      AcceptRun(url, p)
  }

  // ---------------------------------------------------------------------
  // The player.

  const EmbedPrefix := "https://www.youtube.com/embed/"
  const InvalidUrlMessage := "URL do YouTube inválida."

  datatype Embed = InvalidUrl(message: string) | Player(src: string)

  /** `YouTubeEmbed`: the error paragraph when no id is found, otherwise an
      iframe on the embed URL of the id. */
  function YouTubeEmbed(url: string): (e: Embed)
    ensures e.InvalidUrl? <==> VideoId(url).None?
    ensures e.InvalidUrl? ==> e.message == InvalidUrlMessage
    ensures e.Player? ==> |e.src| == |EmbedPrefix| + IdLength && e.src[..|EmbedPrefix|] == EmbedPrefix
    ensures e.Player? ==> VideoId(url).Some? && e.src == EmbedPrefix + VideoId(url).value
  {
    match VideoId(url)
    case None => InvalidUrl(InvalidUrlMessage)
    case Some(id) => Player(EmbedPrefix + id)
  }

  /** The embed prefix ends in the `embed/` marker, which starts at 24. */
  lemma EmbedPrefixMarkers(s: string)
    requires |s| >= |EmbedPrefix| && s[..|EmbedPrefix|] == EmbedPrefix
    ensures MarkerLength(s, 24) == 6
    ensures forall j :: 24 < j < |EmbedPrefix| ==> MarkerLength(s, j) == 0
    ensures forall j :: 0 <= j < |EmbedPrefix| ==> !IsLineTerminator(s[j])
  {
    assert forall j :: 0 <= j < |EmbedPrefix| ==> s[j] == EmbedPrefix[j];
    assert s[24] == 'e' && s[25] == 'm' && s[26] == 'b' && s[27] == 'e' && s[28] == 'd' && s[29] == '/';
    forall j | 24 < j < |EmbedPrefix| ensures MarkerLength(s, j) == 0 {
      if MarkerLength(s, j) > 0 {
        MarkerStart(s, j);
        assert false;
      }
    }
  }

  lemma NoMarkerWithoutStart(s: string, j: nat)
    requires j >= |s| || !MayStartMarker(s[j])
    ensures MarkerLength(s, j) == 0
  {
    if MarkerLength(s, j) > 0 {
      MarkerStart(s, j);
    }
  }

  lemma NoMarkersBetween(s: string, lo: nat, hi: nat)
    requires hi <= |s|
    requires forall j :: lo <= j < hi ==> !MayStartMarker(s[j])
    ensures forall j :: lo <= j < hi ==> MarkerLength(s, j) == 0
  {
    forall j | lo <= j < hi ensures MarkerLength(s, j) == 0 {
      NoMarkerWithoutStart(s, j);
    }
  }

  lemma RunToEnd(s: string, k: nat)
    requires k <= |s|
    requires forall j :: k <= j < |s| ==> !EndsRun(s[j])
    ensures RunEnd(s, k) == |s|
  {
  }

  /** Behind a line-free prefix, the first line ends where it ends in the rest. */
  lemma LineEndAfter(a: string, b: string)
    requires forall j :: 0 <= j < |a| ==> !IsLineTerminator(a[j])
    ensures LineEnd(a + b) == |a| + LineEnd(b)
  {
    var s, e := a + b, LineEnd(b);
    forall j | 0 <= j < |a| + e ensures !IsLineTerminator(s[j]) {
      if j >= |a| { assert s[j] == b[j - |a|]; }
    }
    WithinFirstLine(s, |a| + e);
    if |a| + e < |s| {
      assert s[|a| + e] == b[e];
    }
  }

  /** An accepted id contains no marker within its first line: such a marker
      would appear in the URL after the rightmost one and still within the
      URL's first line. */
  lemma AcceptedIdHasNoMarker(url: string, p: nat)
    requires IsRightmostMarker(url, p) && AcceptRun(url, p).Some?
    ensures var id := AcceptRun(url, p).value;
            forall d :: 0 <= d <= LineEnd(id) ==> MarkerLength(id, d) == 0
  {
    var id := AcceptRun(url, p).value;
    var k := p + MarkerLength(url, p);
    assert id == url[k..k + IdLength];
    assert OccursAt(url, id, k);
    forall d | 0 <= d <= LineEnd(id) ensures MarkerLength(id, d) == 0 {
      forall x | 0 <= x < k + d ensures !IsLineTerminator(url[x]) {
        if x >= k { assert url[x] == id[x - k]; }
      }
      WithinFirstLine(url, k + d);
      MarkerInSlice(url, k, id, d);
    }
  }

  /** A marker inside a piece of a string is a marker of the whole string at
      the same place. */
  lemma MarkerInSlice(t: string, k: nat, s: string, d: nat)
    requires OccursAt(t, s, k)
    ensures MarkerLength(s, d) > 0 ==> MarkerLength(t, k + d) == MarkerLength(s, d)
  {
    if MarkerLength(s, d) > 0 {
      MarkerIsLocal(s, d, t, k + d);
    }
  }

  /** For an 11-character id with no marker in its first line, the player's
      URL puts the rightmost marker at the `embed/` that ends its prefix. */
  lemma EmbedMarkerIsRightmost(id: string)
    requires |id| == IdLength
    requires forall d :: 0 <= d <= LineEnd(id) ==> MarkerLength(id, d) == 0
    ensures IsRightmostMarker(EmbedPrefix + id, 24)
  {
    var s, n := EmbedPrefix + id, |EmbedPrefix|;
    assert s[..n] == EmbedPrefix;
    EmbedPrefixMarkers(s);
    LineEndAfter(EmbedPrefix, id);
    forall j | n <= j <= LineEnd(s) ensures MarkerLength(s, j) == 0 {
      MarkerInSuffix(EmbedPrefix, id, j);
    }
  }

  /** A marker of `a + b` that starts inside `b` is a marker of `b`. */
  lemma MarkerInSuffix(a: string, b: string, j: nat)
    requires |a| <= j
    ensures MarkerLength(a + b, j) > 0 ==> MarkerLength(b, j - |a|) == MarkerLength(a + b, j)
  {
    var s := a + b;
    if MarkerLength(s, j) > 0 {
      assert forall x :: j <= x < j + MarkerLength(s, j) ==> b[j - |a| + (x - j)] == s[x];
      MarkerIsLocal(s, j, b, j - |a|);
    }
  }

  /** An accepted id, put behind the embed prefix, is accepted again. */
  lemma ReparseAcceptedId(url: string, p: nat)
    requires IsRightmostMarker(url, p) && AcceptRun(url, p).Some?
    ensures VideoId(EmbedPrefix + AcceptRun(url, p).value) == AcceptRun(url, p)
  {
    var id := AcceptRun(url, p).value;
    var k := p + MarkerLength(url, p);
    assert id == url[k..k + IdLength];
    AcceptedIdHasNoMarker(url, p);
    EmbedMarkerIsRightmost(id);
    var s, n := EmbedPrefix + id, |EmbedPrefix|;
    assert s[..n] == EmbedPrefix;
    EmbedPrefixMarkers(s);
    forall j | n <= j < |s| ensures !EndsRun(s[j]) {
      assert s[j] == id[j - n] == url[k + (j - n)];
    }
    RunToEnd(s, n);
    assert IdRun(s, n) == s[n..] == id;
    assert 24 + MarkerLength(s, 24) == n;
    AcceptedAtRightmost(s, 24, id);
  }

  /** Re-reading the player's own URL gives back the same id, whatever the
      original URL looked like. */
  lemma EmbedSourceRoundTrip(url: string)
    ensures YouTubeEmbed(url).Player? ==> VideoId(YouTubeEmbed(url).src) == VideoId(url)
  {
    if VideoId(url).Some? {
      var p := LastMarker(url, LineEnd(url)).value;
      assert IsRightmostMarker(url, p);
      ReparseAcceptedId(url, p);
    }
  }

  lemma RunEndIs(s: string, k: nat, e: nat)
    requires k <= e <= |s|
    requires forall j :: k <= j < e ==> !EndsRun(s[j])
    requires e < |s| ==> EndsRun(s[e])
    ensures RunEnd(s, k) == e
  {
  }

  /** In `url + "&" + rest`, where no character of `rest` can start a marker,
      the markers up to `|url|` are those of `url` and there are none after. */
  lemma MarkersBeforeAmpersand(url: string, rest: string, j: nat)
    requires forall x :: 0 <= x < |rest| ==> !MayStartMarker(rest[x])
    ensures var s := url + "&" + rest;
            MarkerLength(s, j) == if j <= |url| then MarkerLength(url, j) else 0
  {
    var s, b := url + "&" + rest, |url|;
    assert s[b] == '&';
    assert forall x :: 0 <= x < b ==> s[x] == url[x];
    assert forall x :: b < x < |s| ==> s[x] == rest[x - b - 1];
    if j > b {
      NoMarkerWithoutStart(s, j);
    } else {
      if MarkerLength(url, j) > 0 {
        MarkerIsLocal(url, j, s, j);
      }
      if MarkerLength(s, j) > 0 {
        MarkerIsLocal(s, j, url, j);
      }
    }
  }

  /** Appending text never moves an earlier line end, and never shortens a
      first line that reached the end. */
  lemma LineEndWithSuffix(url: string, sfx: string)
    ensures LineEnd(url) < |url| ==> LineEnd(url + sfx) == LineEnd(url)
    ensures LineEnd(url) == |url| ==> LineEnd(url + sfx) >= |url|
  {
    var s := url + sfx;
    assert forall x :: 0 <= x < |url| ==> s[x] == url[x];
    WithinFirstLine(s, LineEnd(url));
  }

  /** Appending a further query parameter such as `&t=30s` never changes the
      extracted id, provided none of its characters could begin a marker (no
      `y`, `v`, `u`, `e`, `w` or `&`): the `&` ends the id's run, and the rest
      adds no marker. */
  lemma TrailingParameterIgnored(url: string, rest: string)
    requires forall x :: 0 <= x < |rest| ==> !MayStartMarker(rest[x])
    ensures VideoId(url + "&" + rest) == VideoId(url)
  {
    var s := url + "&" + rest;
    match LastMarker(url, LineEnd(url))
    case None =>
      TrailingParameterAddsNoMarker(url, rest);
    case Some(p) =>
      assert IsRightmostMarker(url, p);
      TrailingParameterKeepsAccept(url, rest, p);
  }

  lemma TrailingParameterKeepsAccept(url: string, rest: string, p: nat)
    requires forall x :: 0 <= x < |rest| ==> !MayStartMarker(rest[x])
    requires IsRightmostMarker(url, p)
    ensures IsRightmostMarker(url + "&" + rest, p)
    ensures AcceptRun(url + "&" + rest, p) == AcceptRun(url, p)
  {
    TrailingParameterKeepsMarker(url, rest, p);
    MarkersBeforeAmpersand(url, rest, p);
    TrailingParameterKeepsRun(url, rest, p + MarkerLength(url, p));
  }

  lemma TrailingParameterAddsNoMarker(url: string, rest: string)
    requires forall x :: 0 <= x < |rest| ==> !MayStartMarker(rest[x])
    requires forall p :: 0 <= p <= LineEnd(url) ==> MarkerLength(url, p) == 0
    ensures forall p :: 0 <= p <= LineEnd(url + "&" + rest) ==> MarkerLength(url + "&" + rest, p) == 0
  {
    var s := url + "&" + rest;
    LineEndWithSuffix(url, "&" + rest);
    assert url + ("&" + rest) == s;
    forall p | 0 <= p <= LineEnd(s) ensures MarkerLength(s, p) == 0 {
      MarkersBeforeAmpersand(url, rest, p);
    }
  }

  lemma TrailingParameterKeepsMarker(url: string, rest: string, p: nat)
    requires forall x :: 0 <= x < |rest| ==> !MayStartMarker(rest[x])
    requires IsRightmostMarker(url, p)
    ensures IsRightmostMarker(url + "&" + rest, p)
  {
    var s := url + "&" + rest;
    LineEndWithSuffix(url, "&" + rest);
    assert url + ("&" + rest) == s;
    MarkersBeforeAmpersand(url, rest, p);
    forall j | p < j <= LineEnd(s) ensures MarkerLength(s, j) == 0 {
      MarkersBeforeAmpersand(url, rest, j);
    }
  }

  lemma TrailingParameterKeepsRun(url: string, rest: string, k: nat)
    requires k <= |url|
    ensures IdRun(url + "&" + rest, k) == IdRun(url, k)
  {
    var s, b := url + "&" + rest, |url|;
    assert forall x :: 0 <= x < b ==> s[x] == url[x];
    assert s[b] == '&';
    var e := RunEnd(url, k);
    RunEndIs(s, k, e);
    assert s[k..e] == url[k..e];
  }

  /** The example from the page: a start time after the id is ignored. */
  lemma StartTimeIgnored(url: string)
    ensures VideoId(url + "&t=30s") == VideoId(url)
  {
    var rest := "t=30s";
    assert url + "&t=30s" == url + "&" + rest;
    TrailingParameterIgnored(url, rest);
  }

  // ---------------------------------------------------------------------
  // Concrete URLs.

  /** The extraction's result once the rightmost marker is known. */
  lemma AcceptedAtRightmost(url: string, p: nat, id: string)
    requires IsRightmostMarker(url, p) && AcceptRun(url, p) == Some(id)
    ensures VideoId(url) == Some(id)
  {
  }

  lemma WatchUrlMarker(url: string)
    requires url == "https://www.youtube.com/watch?v=dQw4w9WgXcQ"
    ensures IsRightmostMarker(url, 24)
  {
    WatchUrlMarkerAt(url);
    WatchUrlNoLaterMarker(url);
    WatchUrlOneLine(url);
  }

  lemma WatchUrlMarkerAt(url: string)
    requires url == "https://www.youtube.com/watch?v=dQw4w9WgXcQ"
    ensures MarkerLength(url, 24) == 8
  {
    assert url[24] == 'w' && url[25] == 'a' && url[26] == 't' && url[27] == 'c';
    assert url[28] == 'h' && url[29] == '?' && url[30] == 'v' && url[31] == '=';
  }

  lemma WatchUrlNoLaterMarker(url: string)
    requires url == "https://www.youtube.com/watch?v=dQw4w9WgXcQ"
    ensures forall j :: 24 < j <= |url| ==> MarkerLength(url, j) == 0
  {
    NoMarkersBetween(url, 25, 30);
    assert url[30] == 'v' && url[31] == '=';
    assert url[34] == 'w' && url[35] == '4' && url[36] == 'w' && url[37] == '9';
    assert MarkerLength(url, 30) == 0 && MarkerLength(url, 34) == 0 && MarkerLength(url, 36) == 0;
    NoMarkersBetween(url, 31, 34);
    NoMarkerWithoutStart(url, 35);
    NoMarkersBetween(url, 37, 43);
    NoMarkerWithoutStart(url, 43);
  }

  lemma WatchUrlOneLine(url: string)
    requires url == "https://www.youtube.com/watch?v=dQw4w9WgXcQ"
    ensures LineEnd(url) == |url|
  {
    WatchUrlNoTerminator(url);
    WholeLine(url);
  }

  lemma WatchUrlNoTerminator(url: string)
    requires url == "https://www.youtube.com/watch?v=dQw4w9WgXcQ"
    ensures NoLineTerminator(url)
  {
  }

  lemma WatchUrlExample(url: string)
    requires url == "https://www.youtube.com/watch?v=dQw4w9WgXcQ"
    ensures VideoId(url) == Some("dQw4w9WgXcQ")
  {
    WatchUrlMarker(url);
    WatchUrlMarkerAt(url);
    WatchUrlRun(url);
    AcceptedAtRightmost(url, 24, "dQw4w9WgXcQ");
  }

  lemma WatchUrlRun(url: string)
    requires url == "https://www.youtube.com/watch?v=dQw4w9WgXcQ"
    ensures IdRun(url, 32) == "dQw4w9WgXcQ"
  {
    assert forall j :: 32 <= j < |url| ==> !EndsRun(url[j]);
    RunToEnd(url, 32);
    assert url[32..] == "dQw4w9WgXcQ";
  }

  lemma ShortUrlMarker(url: string)
    requires url == "https://youtu.be/dQw4w9WgXcQ"
    ensures IsRightmostMarker(url, 8) && MarkerLength(url, 8) == 9
  {
    ShortUrlMarkerAt(url);
    ShortUrlNoLaterMarker(url);
    ShortUrlOneLine(url);
  }

  lemma ShortUrlMarkerAt(url: string)
    requires url == "https://youtu.be/dQw4w9WgXcQ"
    ensures MarkerLength(url, 8) == 9
  {
    assert url[8] == 'y' && url[9] == 'o' && url[10] == 'u' && url[11] == 't' && url[12] == 'u';
    assert url[13] == '.' && url[14] == 'b' && url[15] == 'e' && url[16] == '/';
  }

  lemma ShortUrlNoLaterMarker(url: string)
    requires url == "https://youtu.be/dQw4w9WgXcQ"
    ensures forall j :: 8 < j <= |url| ==> MarkerLength(url, j) == 0
  {
    ShortUrlNoMarkerInHost(url);
    ShortUrlNoMarkerInId(url);
  }

  lemma ShortUrlNoMarkerInHost(url: string)
    requires url == "https://youtu.be/dQw4w9WgXcQ"
    ensures forall j :: 8 < j < 17 ==> MarkerLength(url, j) == 0
  {
    assert url[10] == 'u' && url[11] == 't' && url[12] == 'u' && url[13] == '.';
    assert url[15] == 'e' && url[16] == '/';
    assert MarkerLength(url, 10) == 0 && MarkerLength(url, 12) == 0 && MarkerLength(url, 15) == 0;
    NoMarkerWithoutStart(url, 9);
    NoMarkerWithoutStart(url, 11);
    NoMarkersBetween(url, 13, 15);
    NoMarkerWithoutStart(url, 16);
  }

  lemma ShortUrlNoMarkerInId(url: string)
    requires url == "https://youtu.be/dQw4w9WgXcQ"
    ensures forall j :: 17 <= j <= |url| ==> MarkerLength(url, j) == 0
  {
    assert url[19] == 'w' && url[20] == '4' && url[21] == 'w' && url[22] == '9';
    assert MarkerLength(url, 19) == 0 && MarkerLength(url, 21) == 0;
    NoMarkersBetween(url, 17, 19);
    NoMarkerWithoutStart(url, 20);
    NoMarkersBetween(url, 22, 28);
    NoMarkerWithoutStart(url, 28);
  }

  lemma ShortUrlOneLine(url: string)
    requires url == "https://youtu.be/dQw4w9WgXcQ"
    ensures LineEnd(url) == |url|
  {
    assert NoLineTerminator(url);
    WholeLine(url);
  }

  lemma ShortUrlRun(url: string)
    requires url == "https://youtu.be/dQw4w9WgXcQ"
    ensures IdRun(url, 17) == "dQw4w9WgXcQ"
  {
    assert forall j :: 17 <= j < |url| ==> !EndsRun(url[j]);
    RunToEnd(url, 17);
    assert url[17..] == "dQw4w9WgXcQ";
  }

  lemma ShortUrlExample(url: string)
    requires url == "https://youtu.be/dQw4w9WgXcQ"
    ensures VideoId(url) == Some("dQw4w9WgXcQ")
  {
    ShortUrlMarker(url);
    ShortUrlRun(url);
    AcceptedAtRightmost(url, 8, "dQw4w9WgXcQ");
  }
}
