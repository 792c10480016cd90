/** `extractVideoId` and `isValidYouTubeUrl`. The first pattern,
      /(?:youtube\.com\/watch\?v=|youtu\.be\/|youtube\.com\/embed\/)([^&\n?#]+)/
    is unanchored: JavaScript tries start positions from the left, at each
    one the three prefixes in order, and the greedy run after a prefix must
    hold at least one character. The second pattern, /^([a-zA-Z0-9_-]{11})$/,
    has no `m` flag, so it matches only the whole input. The first pattern
    that matches wins and its capture group is the id. */
module YouTube {
  import opened Common

  const WatchPrefix: string := "youtube.com/watch?v="
  const ShortPrefix: string := "youtu.be/"
  const EmbedPrefix: string := "youtube.com/embed/"

  /** The alternation, in the order the regular expression tries it. */
  const Prefixes: seq<string> := [WatchPrefix, ShortPrefix, EmbedPrefix]

  const BareIdLength: nat := 11

  /** `[^&\n?#]` */
  predicate Allowed(c: char) {
    c != '&' && c != '\n' && c != '?' && c != '#'
  }

  /** `[a-zA-Z0-9_-]` */
  predicate IdChar(c: char) {
    ('a' <= c <= 'z') || ('A' <= c <= 'Z') || ('0' <= c <= '9') || c == '_' || c == '-'
  }

  predicate TextAt(url: string, p: nat, prefix: string) {
    p + |prefix| <= |url| && url[p..p + |prefix|] == prefix
  }

  /** Alternative `j` matches at `p` and is followed by at least one
      character of the id class, so `+` can succeed. */
  predicate AltMatchesAt(url: string, p: nat, j: nat)
    requires j < |Prefixes|
  {
    TextAt(url, p, Prefixes[j]) && p + |Prefixes[j]| < |url| && Allowed(url[p + |Prefixes[j]|])
  }

  /** Some alternative starts a match at `p`. */
  predicate MatchStart(url: string, p: nat) {
    exists j :: 0 <= j < |Prefixes| && AltMatchesAt(url, p, j)
  }

  /** The first alternative, in pattern order, that matches at `p`. */
  function FirstAlternative(url: string, p: nat): (j: nat)
    requires MatchStart(url, p)
    ensures j < |Prefixes| && AltMatchesAt(url, p, j)
    ensures forall i :: 0 <= i < j ==> !AltMatchesAt(url, p, i)
  {
    if AltMatchesAt(url, p, 0) then 0 else if AltMatchesAt(url, p, 1) then 1 else 2
  }

  /** End of the greedy run of `[^&\n?#]` starting at `from`. */
  function RunEnd(url: string, from: nat): (e: nat)
    requires from <= |url|
    ensures from <= e <= |url|
    ensures forall i :: from <= i < e ==> Allowed(url[i])
    ensures e < |url| ==> !Allowed(url[e])
    decreases |url| - from
  {
    if from == |url| || !Allowed(url[from]) then from else RunEnd(url, from + 1)
  }

  /** The leftmost start position at or after `from` where the first
      pattern matches. */
  function FindUrlMatch(url: string, from: nat): (r: Option<nat>)
    ensures r.Some? ==> from <= r.value < |url| && MatchStart(url, r.value)
    ensures forall q :: from <= q < |url| && (r.None? || q < r.value) ==> !MatchStart(url, q)
    decreases |url| - from
  {
    if from >= |url| then None
    else if MatchStart(url, from) then Some(from)
    else FindUrlMatch(url, from + 1)
  }

  /** Capture group 1 of a match starting at `p`: the greedy run after the
      chosen prefix, which `+` makes non-empty. */
  function Capture(url: string, p: nat): (id: string)
    requires MatchStart(url, p)
    ensures |id| >= 1
    ensures forall i :: 0 <= i < |id| ==> Allowed(id[i])
  {
    var start := p + |Prefixes[FirstAlternative(url, p)]|;
    url[start..RunEnd(url, start)]
  }

  /** `/^([a-zA-Z0-9_-]{11})$/` */
  predicate IsBareId(url: string) {
    |url| == BareIdLength && forall i :: 0 <= i < |url| ==> IdChar(url[i])
  }

  /** Every id returned is non-empty and free of `&`, `?`, `#` and newline;
      without a URL match it is exactly the 11-character input. */
  function ExtractVideoId(url: string): (r: Option<string>)
    ensures r.Some? ==> |r.value| >= 1 && forall i :: 0 <= i < |r.value| ==> Allowed(r.value[i])
    ensures r.Some? && FindUrlMatch(url, 0).None? ==> r.value == url && IsBareId(url)
  {
    match FindUrlMatch(url, 0)
    case Some(p) => Some(Capture(url, p))
    case None => if IsBareId(url) then Some(url) else None
  }

  /** An input is accepted exactly when some prefix in it is followed by an
      id character, or when it is a bare 11-character id. */
  function IsValidYouTubeUrl(url: string): (valid: bool)
    ensures valid <==> (exists p :: 0 <= p < |url| && MatchStart(url, p)) || IsBareId(url)
  {
    var m := FindUrlMatch(url, 0);
    assert m.Some? ==> MatchStart(url, m.value);
    ExtractVideoId(url) != None
  }

  // ---------------------------------------------------------------------
  // Properties
  // ---------------------------------------------------------------------

  /** An id found by the URL pattern is the maximal non-empty run of
      `[^&\n?#]` right after the leftmost prefix occurrence that has one. */
  lemma UrlIdIsMaximalRun(url: string)
    requires FindUrlMatch(url, 0).Some?
    ensures var p := FindUrlMatch(url, 0).value;
      var start := p + |Prefixes[FirstAlternative(url, p)]|;
      var id := ExtractVideoId(url).value;
      && (forall q :: 0 <= q < p ==> !MatchStart(url, q))
      && |id| >= 1
      && start + |id| <= |url|
      && url[start..start + |id|] == id
      && (forall i :: 0 <= i < |id| ==> Allowed(id[i]))
      && (start + |id| < |url| ==> !Allowed(url[start + |id|]))
  {
    var p := FindUrlMatch(url, 0).value;
    var start := p + |Prefixes[FirstAlternative(url, p)]|;
    var e := RunEnd(url, start);
    assert e > start;
  }

  /** Whatever is returned is a piece of the input. */
  lemma IdIsSubstring(url: string)
    requires ExtractVideoId(url).Some?
    ensures var id := ExtractVideoId(url).value;
      exists i: nat :: TextAt(url, i, id)
  {
    var id := ExtractVideoId(url).value;
    match FindUrlMatch(url, 0)
    case Some(p) =>
      UrlIdIsMaximalRun(url);
      var start := p + |Prefixes[FirstAlternative(url, p)]|;
      assert TextAt(url, start, id);
    case None =>
      assert url[0..|url|] == url;
      assert TextAt(url, 0, id);
  }

  /** Each prefix holds a `.`, which no bare id does: an input never
      matches both patterns, so the order between them decides nothing. */
  lemma PatternsExclusive(url: string)
    requires IsBareId(url)
    ensures FindUrlMatch(url, 0).None?
  {
    forall p: nat, j | 0 <= j < |Prefixes| ensures !AltMatchesAt(url, p, j) {
      if p + |Prefixes[j]| <= |url| {
        var d := if j == 1 then 5 else 7;
        assert Prefixes[j][d] == '.';
        assert IdChar(url[p..p + |Prefixes[j]|][d]);
        assert url[p..p + |Prefixes[j]|] != Prefixes[j];
      }
    }
  }

  /** Conversely, the leftmost match start is what the scan finds. */
  lemma {:induction false} LeftmostIsFound(url: string, from: nat, p: nat)
    requires from <= p < |url| && MatchStart(url, p)
    requires forall q :: from <= q < p ==> !MatchStart(url, q)
    ensures FindUrlMatch(url, from) == Some(p)
    decreases p - from
  {
    if from < p {
      LeftmostIsFound(url, from + 1, p);
    }
  }

  /** Every prefix begins with `y`: no match starts at any other character. */
  lemma NoMatchWithoutY(url: string, q: nat)
    requires q < |url| ==> url[q] != 'y'
    ensures !MatchStart(url, q)
  {
    forall j | 0 <= j < |Prefixes| ensures !AltMatchesAt(url, q, j) {
      if q + |Prefixes[j]| <= |url| {
        assert url[q..q + |Prefixes[j]|][0] != Prefixes[j][0];
      }
    }
  }

  /** The URL pattern puts no length limit on the id. */
  lemma ShortLinkOfOneCharacter()
    ensures ExtractVideoId("youtu.be/x") == Some("x")
  {
    var url := "youtu.be/x";
    assert AltMatchesAt(url, 0, 1);
    assert FirstAlternative(url, 0) == 1 by {
      assert !TextAt(url, 0, Prefixes[0]);
    }
    assert RunEnd(url, 10) == 10;
    assert RunEnd(url, 9) == 10;
    assert MatchStart(url, 0);
    assert FindUrlMatch(url, 0) == Some(0);
    assert |Prefixes[1]| == 9;
    assert Capture(url, 0) == url[9..10];
    assert url[9..10] == "x";
  }

  /** The URL pattern is unanchored and the run stops at `&`. */
  lemma WatchLinkInsideText()
    ensures ExtractVideoId("see " + WatchPrefix + "abc&t=1") == Some("abc")
  {
    var url := "see " + WatchPrefix + "abc&t=1";
    NoMatchWithoutY(url, 0);
    NoMatchWithoutY(url, 1);
    NoMatchWithoutY(url, 2);
    NoMatchWithoutY(url, 3);
    assert url[4..24] == WatchPrefix;
    assert AltMatchesAt(url, 4, 0);
    LeftmostIsFound(url, 0, 4);
    assert RunEnd(url, 27) == 27;
    assert RunEnd(url, 24) == 27;
    assert Capture(url, 4) == url[24..27];
    assert url[24..27] == "abc";
  }

  /** A prefix with nothing usable after it is no match: `youtu.be/?v` is
      rejected. */
  lemma EmptyIdRejected()
    ensures ExtractVideoId("youtu.be/?v") == None
  {
    var a := "youtu.be/?v";
    forall q | 1 <= q < |a| ensures !MatchStart(a, q) {
      NoMatchWithoutY(a, q);
    }
    assert !AltMatchesAt(a, 0, 1);
    assert FindUrlMatch(a, 0).None?;
    assert !IdChar(a[5]);
  }

  /** The bare-id pattern is anchored at both ends: a trailing newline
      defeats it, while the eleven characters alone are returned unchanged. */
  lemma BareIdAnchored()
    ensures ExtractVideoId("dQw4w9WgXcQ\n") == None
    ensures ExtractVideoId("dQw4w9WgXcQ") == Some("dQw4w9WgXcQ")
  {
    var b := "dQw4w9WgXcQ\n";
    forall q | 0 <= q < |b| ensures !MatchStart(b, q) {
      NoMatchWithoutY(b, q);
    }
    assert FindUrlMatch(b, 0).None?;
    var c := "dQw4w9WgXcQ";
    assert IsBareId(c);
    PatternsExclusive(c);
  }
}
