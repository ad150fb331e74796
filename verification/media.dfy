/** The video and audio players: which renderer a media URL gets (an
    embedding iframe, a native `<video>`/`<audio>` element, or the
    "unsupported format" notice), how platform URLs are rewritten into
    their embeddable form, and how site-relative files are resolved
    against the deployment base path.

    The three regular expressions the players use all have the shape
    `(?:alt1|alt2|…)([^stops]+)` and are modelled by one matcher, `Pattern`,
    that follows the ECMAScript search order: the leftmost start position
    wins, alternatives are tried in order, and the greedy group takes the
    longest run (nothing follows it, so it never backtracks to a shorter
    one). */
module MediaUrls {
  import opened Wrappers
  import opened Strings

  // ---------------------------------------------------------------------
  // A matcher for `(?:alt1|alt2|…)([^stops]+)`
  // ---------------------------------------------------------------------

  /** One position of an alternative: a literal character, or `.` (any
      character except a line terminator). */
  datatype Atom = Char(c: char) | Dot

  predicate IsLineTerminator(c: char) {
    c == '\n' || c == '\r' || c == '\U{2028}' || c == '\U{2029}'
  }

  predicate AtomMatches(a: Atom, c: char) {
    match a
    case Char(x) => c == x
    case Dot => !IsLineTerminator(c)
  }

  /** The alternative that matches exactly the characters of `t`. */
  function Literal(t: string): (p: seq<Atom>)
    ensures |p| == |t|
    ensures forall k :: 0 <= k < |t| ==> p[k] == Char(t[k])
  {
    seq(|t|, k requires 0 <= k < |t| => Char(t[k]))
  }

  datatype Pattern = Pattern(alternatives: seq<seq<Atom>>, stops: set<char>)

  /** Alternative `p` matches `s` at position `i`. */
  predicate PrefixAt(s: string, p: seq<Atom>, i: nat) {
    i + |p| <= |s| && forall k :: 0 <= k < |p| ==> AtomMatches(p[k], s[i + k])
  }

  /** A literal alternative matches exactly where its text occurs. */
  lemma LiteralPrefixAt(s: string, t: string, i: nat)
    ensures PrefixAt(s, Literal(t), i) <==> OccursAt(s, t, i)
  {
    if PrefixAt(s, Literal(t), i) {
      assert s[i..i + |t|] == t;
    }
  }

  /** Alternative `p` starts a successful match at `i`: it matches there
      and is followed by at least one character the group accepts. */
  predicate CanMatch(s: string, p: seq<Atom>, stops: set<char>, i: nat) {
    PrefixAt(s, p, i) && i + |p| < |s| && s[i + |p|] !in stops
  }

  /** `g` is the group captured when alternative `p` matches at `i`: the
      longest non-empty run of non-stop characters after the prefix. */
  predicate IsGroupAt(s: string, p: seq<Atom>, stops: set<char>, i: nat, g: string) {
    && PrefixAt(s, p, i)
    && 0 < |g|
    && i + |p| + |g| <= |s|
    && s[i + |p|..i + |p| + |g|] == g
    && (forall c :: c in g ==> c !in stops)
    && (i + |p| + |g| == |s| || s[i + |p| + |g|] in stops)
  }

  /** An alternative that matches at `i` captures one group only. */
  lemma GroupUnique(s: string, p: seq<Atom>, stops: set<char>, i: nat, g1: string, g2: string)
    requires IsGroupAt(s, p, stops, i, g1) && IsGroupAt(s, p, stops, i, g2)
    ensures g1 == g2
  {
  }

  /** A one-alternative pattern's attempt is that alternative's group. */
  lemma SingleAlternative(s: string, p: seq<Atom>, stops: set<char>, i: nat)
    ensures MatchAt(s, Pattern([p], stops), i) == GroupAt(s, p, stops, i)
  {
    var alts: seq<seq<Atom>> := [p];
    assert alts[1..] == [];
    assert FirstAlt(s, alts[1..], stops, i) == None;
  }

  /** A two-alternative pattern tries the second alternative only when the
      first cannot match. */
  lemma TwoAlternatives(s: string, a: seq<Atom>, b: seq<Atom>, stops: set<char>, i: nat)
    ensures MatchAt(s, Pattern([a, b], stops), i)
      == if GroupAt(s, a, stops, i).Some? then GroupAt(s, a, stops, i) else GroupAt(s, b, stops, i)
  {
    var alts: seq<seq<Atom>> := [a, b];
    assert alts[1..] == [b];
    SingleAlternative(s, b, stops, i);
  }

  /** Length of the longest run of non-stop characters starting at `from`. */
  function RunLength(s: string, stops: set<char>, from: nat): (n: nat)
    requires from <= |s|
    ensures from + n <= |s|
    ensures forall k :: from <= k < from + n ==> s[k] !in stops
    ensures from + n == |s| || s[from + n] in stops
    decreases |s| - from
  {
    if from == |s| || s[from] in stops then 0 else 1 + RunLength(s, stops, from + 1)
  }

  /** The group alternative `p` captures at `i`, if it matches there. */
  function GroupAt(s: string, p: seq<Atom>, stops: set<char>, i: nat): (r: Option<string>)
    ensures r.Some? <==> CanMatch(s, p, stops, i)
    ensures r.Some? ==> IsGroupAt(s, p, stops, i, r.value)
  {
    if PrefixAt(s, p, i) then
      var n := RunLength(s, stops, i + |p|);
      if n > 0 then
        var g := s[i + |p|..i + |p| + n];
        assert forall c :: c in g ==> c !in stops by {
          forall c | c in g ensures c !in stops {
            var k :| 0 <= k < |g| && g[k] == c;
            assert s[i + |p| + k] == c;
          }
        }
        Some(g)
      else None
    else None
  }

  /** The attempt at one start position: the first alternative, in order,
      that can match there. */
  function FirstAlt(s: string, alts: seq<seq<Atom>>, stops: set<char>, i: nat): Option<string> {
    if alts == [] then None
    else match GroupAt(s, alts[0], stops, i)
      case Some(g) => Some(g)
      case None => FirstAlt(s, alts[1..], stops, i)
  }

  /** An attempt fails exactly when no alternative can match, and succeeds
      with the group of the first alternative that can. */
  lemma {:induction false} FirstAltSpec(s: string, alts: seq<seq<Atom>>, stops: set<char>, i: nat)
    ensures var r := FirstAlt(s, alts, stops, i);
      && (r.None? <==> forall k :: 0 <= k < |alts| ==> !CanMatch(s, alts[k], stops, i))
      && (r.Some? ==> exists k :: 0 <= k < |alts| && FirstMatchingAlt(s, alts, stops, i, k, r.value))
  {
    if alts != [] {
      var r := FirstAlt(s, alts, stops, i);
      match GroupAt(s, alts[0], stops, i)
      case Some(g) =>
        assert FirstMatchingAlt(s, alts, stops, i, 0, g);
      case None =>
        FirstAltSpec(s, alts[1..], stops, i);
        assert forall k :: 1 <= k < |alts| ==> alts[k] == alts[1..][k - 1];
        if r.Some? {
          var k :| 0 <= k < |alts[1..]| && FirstMatchingAlt(s, alts[1..], stops, i, k, r.value);
          assert FirstMatchingAlt(s, alts, stops, i, k + 1, r.value);
        }
    }
  }

  /** Alternative `k` is the first one that matches at `i`, and it
      captures `g`. */
  predicate FirstMatchingAlt(s: string, alts: seq<seq<Atom>>, stops: set<char>, i: nat, k: nat, g: string)
    requires k < |alts|
  {
    && IsGroupAt(s, alts[k], stops, i, g)
    && forall j :: 0 <= j < k ==> !CanMatch(s, alts[j], stops, i)
  }

  function MatchAt(s: string, pat: Pattern, i: nat): Option<string> {
    FirstAlt(s, pat.alternatives, pat.stops, i)
  }

  datatype Found = Found(index: nat, group: string)

  /** No attempt at a start position in `[lo, hi)` succeeds. */
  predicate NoMatchIn(s: string, pat: Pattern, lo: nat, hi: nat) {
    forall j :: lo <= j < hi ==> MatchAt(s, pat, j).None?
  }

  /** The leftmost start position at or after `from` where an attempt
      succeeds. */
  function SearchFrom(s: string, pat: Pattern, from: nat): (r: Option<Found>)
    requires from <= |s|
    ensures r.Some? ==> from <= r.value.index <= |s|
    decreases |s| - from
  {
    var m := MatchAt(s, pat, from);
    if m.Some? then Some(Found(from, m.value))
    else if from == |s| then None
    else SearchFrom(s, pat, from + 1)
  }

  /** The search finds the first successful attempt, and fails only when
      every attempt fails. */
  lemma {:induction false} SearchFromSpec(s: string, pat: Pattern, from: nat)
    requires from <= |s|
    ensures SearchFrom(s, pat, from).Some? ==> MatchAt(s, pat, SearchFrom(s, pat, from).value.index) == Some(SearchFrom(s, pat, from).value.group)
    ensures SearchFrom(s, pat, from).Some? ==> NoMatchIn(s, pat, from, SearchFrom(s, pat, from).value.index)
    ensures SearchFrom(s, pat, from).None? ==> NoMatchIn(s, pat, from, |s| + 1)
    decreases |s| - from
  {
    var m := MatchAt(s, pat, from);
    if m.None? && from < |s| {
      SearchFromSpec(s, pat, from + 1);
      var r := SearchFrom(s, pat, from + 1);
      assert SearchFrom(s, pat, from) == r;
      NoMatchExtends(s, pat, from, if r.Some? then r.value.index else |s| + 1);
    }
  }

  /** A failed attempt at `lo` extends a failure-free stretch after it. */
  lemma NoMatchExtends(s: string, pat: Pattern, lo: nat, hi: nat)
    requires MatchAt(s, pat, lo).None? && NoMatchIn(s, pat, lo + 1, hi)
    ensures NoMatchIn(s, pat, lo, hi)
  {
  }

  /** `s.match(re)?.[1]`: the group of the leftmost match, if any. */
  function MatchGroup(s: string, pat: Pattern): (r: Option<string>)
    ensures r.None? <==> forall i :: 0 <= i <= |s| ==> MatchAt(s, pat, i).None?
    ensures r.Some? ==> exists i :: 0 <= i <= |s| && LeftmostMatch(s, pat, i, r.value)
  {
    SearchFromSpec(s, pat, 0);
    match SearchFrom(s, pat, 0)
    case None => None
    case Some(f) =>
      assert LeftmostMatch(s, pat, f.index, f.group);
      Some(f.group)
  }

  /** The attempt at `i` captures `g`, and every earlier attempt fails. */
  predicate LeftmostMatch(s: string, pat: Pattern, i: nat, g: string) {
    && MatchAt(s, pat, i) == Some(g)
    && forall j :: 0 <= j < i ==> MatchAt(s, pat, j).None?
  }

  /** A successful attempt with no earlier success is what `match` finds. */
  lemma LeftmostIsFound(s: string, pat: Pattern, i: nat, g: string)
    requires LeftmostMatch(s, pat, i, g)
    ensures MatchGroup(s, pat) == Some(g)
  {
    FirstAltSpec(s, pat.alternatives, pat.stops, i);
    var k :| 0 <= k < |pat.alternatives| && FirstMatchingAlt(s, pat.alternatives, pat.stops, i, k, g);
    assert i <= |s|;
  }

  // ---------------------------------------------------------------------
  // The application's patterns and embed addresses
  // ---------------------------------------------------------------------

  /** `(?:v=|youtu\.be\/)([^&?]+)`, the video player's id pattern. */
  const YouTubeIdPattern := Pattern([Literal("v="), Literal("youtu.be/")], {'&', '?'})

  /** `(?:v=|youtu.be\/)([^&?]+)`, the audio player's id pattern: its `.` is
      not escaped and accepts any character but a line terminator. */
  const LooseYouTubeIdPattern :=
    Pattern([Literal("v="), Literal("youtu") + [Dot] + Literal("be/")], {'&', '?'})

  /** `\/file\/d\/([^/]+)`, the Drive file-id pattern. */
  const DriveIdPattern := Pattern([Literal("/file/d/")], {'/'})

  const YouTubeEmbedBase := "https://www.youtube.com/embed/"
  const YouTubeEmbedQuery := "?controls=1&modestbranding=1&rel=0"
  const DriveFileBase := "https://drive.google.com/file/d/"
  const DrivePreviewSuffix := "/preview"

  /** The YouTube player address for a video id; the id sits between the
      fixed base and the fixed query. */
  function YouTubeEmbed(id: string): (r: string)
    ensures StartsWith(r, YouTubeEmbedBase) && EndsWith(r, YouTubeEmbedQuery)
    ensures |r| == |YouTubeEmbedBase| + |id| + |YouTubeEmbedQuery|
    ensures r[|YouTubeEmbedBase|..|r| - |YouTubeEmbedQuery|] == id
  {
    YouTubeEmbedBase + id + YouTubeEmbedQuery
  }

  /** The Drive preview address for a file id. */
  function DrivePreview(id: string): (r: string)
    ensures StartsWith(r, DriveFileBase) && EndsWith(r, DrivePreviewSuffix)
    ensures |r| == |DriveFileBase| + |id| + |DrivePreviewSuffix|
    ensures r[|DriveFileBase|..|r| - |DrivePreviewSuffix|] == id
  {
    DriveFileBase + id + DrivePreviewSuffix
  }

  /** Distinct ids give distinct embed addresses. */
  lemma EmbedsInjective(a: string, b: string)
    ensures YouTubeEmbed(a) == YouTubeEmbed(b) ==> a == b
    ensures DrivePreview(a) == DrivePreview(b) ==> a == b
  {
  }

  // ---------------------------------------------------------------------
  // Classification
  // ---------------------------------------------------------------------

  predicate IsYouTube(url: string) {
    Contains(url, "youtube.com") || Contains(url, "youtu.be")
  }

  predicate IsGoogleVids(url: string) {
    Contains(url, "docs.google.com/videos")
  }

  predicate IsGoogleDrive(url: string) {
    Contains(url, "drive.google.com")
  }

  predicate IsSoundCloud(url: string) {
    Contains(url, "soundcloud.com")
  }

  predicate IsDirectVideo(url: string) {
    StartsWith(url, "/") || Contains(url, ".mp4") || Contains(url, ".webm")
  }

  /** `/\.(m4a|mp3|wav|ogg)$/i`: the suffixes are ASCII, and a
      case-insensitive match without the `u` flag never maps a non-ASCII
      character onto an ASCII letter, so ASCII folding is exact here. */
  predicate IsDirectAudio(url: string) {
    || StartsWith(url, "/")
    || EndsWithIgnoreCase(url, ".m4a")
    || EndsWithIgnoreCase(url, ".mp3")
    || EndsWithIgnoreCase(url, ".wav")
    || EndsWithIgnoreCase(url, ".ogg")
  }

  predicate IsVideoPlatform(url: string) {
    IsYouTube(url) || IsGoogleVids(url) || IsGoogleDrive(url)
  }

  predicate IsAudioPlatform(url: string) {
    IsSoundCloud(url) || IsYouTube(url) || IsGoogleDrive(url)
  }

  // ---------------------------------------------------------------------
  // Embed rewriting
  // ---------------------------------------------------------------------

  /** The YouTube step: a watch or short link (no `/embed/`) whose id the
      pattern captures becomes the embed address; anything else is kept. */
  function YouTubeStep(url: string, idPattern: Pattern): (r: string)
    ensures IsYouTube(url) && !Contains(url, "/embed/") && MatchGroup(url, idPattern).Some? ==>
      r == YouTubeEmbed(MatchGroup(url, idPattern).value)
    ensures !(IsYouTube(url) && !Contains(url, "/embed/") && MatchGroup(url, idPattern).Some?) ==>
      r == url
  {
    if IsYouTube(url) && !Contains(url, "/embed/") then
      match MatchGroup(url, idPattern)
      case Some(id) => YouTubeEmbed(id)
      case None => url
    else url
  }

  /** The Drive step, applied last to the original URL: a `/file/d/{id}`
      address replaces whatever the earlier steps produced. */
  function DriveStep(url: string, current: string): (r: string)
    ensures IsGoogleDrive(url) && MatchGroup(url, DriveIdPattern).Some? ==>
      r == DrivePreview(MatchGroup(url, DriveIdPattern).value)
    ensures !(IsGoogleDrive(url) && MatchGroup(url, DriveIdPattern).Some?) ==> r == current
  {
    if IsGoogleDrive(url) then
      match MatchGroup(url, DriveIdPattern)
      case Some(id) => DrivePreview(id)
      case None => current
    else current
  }

  /** The iframe address of the video player. Later steps start again from
      the original URL, so Drive beats Google Vids, which beats YouTube. */
  function VideoEmbedUrl(url: string): (r: string)
    ensures IsGoogleDrive(url) && MatchGroup(url, DriveIdPattern).Some? ==>
      r == DrivePreview(MatchGroup(url, DriveIdPattern).value)
    ensures !(IsGoogleDrive(url) && MatchGroup(url, DriveIdPattern).Some?) ==>
      if IsGoogleVids(url) && !Contains(url, "/preview") then r == ReplaceFirst(url, "/play", "/preview")
      else r == YouTubeStep(url, YouTubeIdPattern)
  {
    var embed := YouTubeStep(url, YouTubeIdPattern);
    var embed := if IsGoogleVids(url) && !Contains(url, "/preview")
      then ReplaceFirst(url, "/play", "/preview") else embed;
    DriveStep(url, embed)
  }

  /** The iframe address of the audio player: the same steps without the
      Google Vids one, and with the loose id pattern. */
  function AudioEmbedUrl(url: string): (r: string)
    ensures IsGoogleDrive(url) && MatchGroup(url, DriveIdPattern).Some? ==>
      r == DrivePreview(MatchGroup(url, DriveIdPattern).value)
    ensures !(IsGoogleDrive(url) && MatchGroup(url, DriveIdPattern).Some?) ==>
      r == YouTubeStep(url, LooseYouTubeIdPattern)
  {
    DriveStep(url, YouTubeStep(url, LooseYouTubeIdPattern))
  }

  /** A site-relative file (leading `/`) is served under the deployment base
      path with that one slash dropped; any other URL is used as given. */
  function DirectSource(url: string, baseUrl: string): (r: string)
    ensures StartsWith(url, "/") ==> StartsWith(r, baseUrl) && "/" + r[|baseUrl|..] == url
    ensures !StartsWith(url, "/") ==> r == url
  {
    if StartsWith(url, "/") then baseUrl + url[1..] else url
  }

  // ---------------------------------------------------------------------
  // The players
  // ---------------------------------------------------------------------

  datatype Player = Iframe(src: string) | MediaElement(src: string) | Unsupported(url: string)

  /** What the video player renders for `url`. */
  function VideoPlayer(url: string, baseUrl: string): (r: Player)
    ensures r.Iframe? <==> IsVideoPlatform(url)
    ensures r.MediaElement? <==> !IsVideoPlatform(url) && IsDirectVideo(url)
    ensures r.Unsupported? <==> !IsVideoPlatform(url) && !IsDirectVideo(url)
    ensures r.Iframe? ==> r.src == VideoEmbedUrl(url)
    ensures r.MediaElement? ==> r.src == DirectSource(url, baseUrl)
    ensures r.Unsupported? ==> r.url == url
  {
    if IsVideoPlatform(url) then Iframe(VideoEmbedUrl(url))
    else if IsDirectVideo(url) then MediaElement(DirectSource(url, baseUrl))
    else Unsupported(url)
  }

  /** What the audio player renders for `url`. */
  function AudioPlayer(url: string, baseUrl: string): (r: Player)
    ensures r.Iframe? <==> IsAudioPlatform(url)
    ensures r.MediaElement? <==> !IsAudioPlatform(url) && IsDirectAudio(url)
    ensures r.Unsupported? <==> !IsAudioPlatform(url) && !IsDirectAudio(url)
    ensures r.Iframe? ==> r.src == AudioEmbedUrl(url)
    ensures r.MediaElement? ==> r.src == DirectSource(url, baseUrl)
    ensures r.Unsupported? ==> r.url == url
  {
    if IsAudioPlatform(url) then Iframe(AudioEmbedUrl(url))
    else if IsDirectAudio(url) then MediaElement(DirectSource(url, baseUrl))
    else Unsupported(url)
  }

  /** Height in pixels of the audio iframe. */
  function AudioFrameHeight(url: string): (h: nat)
    ensures IsSoundCloud(url) <==> h == 166
    ensures !IsSoundCloud(url) && IsGoogleDrive(url) <==> h == 80
    ensures !IsSoundCloud(url) && !IsGoogleDrive(url) <==> h == 200
  {
    if IsSoundCloud(url) then 166 else if IsGoogleDrive(url) then 80 else 200
  }

  /** Each height belongs to a platform the player embeds: 166 and 80 px
      frames are always rendered, and the 200 px fallback is rendered
      exactly for a YouTube link. */
  lemma AudioFrameHeightFollowsPlayer(url: string, baseUrl: string)
    ensures AudioFrameHeight(url) == 166 ==> AudioPlayer(url, baseUrl).Iframe?
    ensures AudioFrameHeight(url) == 80 ==> AudioPlayer(url, baseUrl).Iframe?
    ensures AudioFrameHeight(url) == 200 ==> (AudioPlayer(url, baseUrl).Iframe? <==> IsYouTube(url))
  {
  }

  // ---------------------------------------------------------------------
  // Properties
  // ---------------------------------------------------------------------

  /** A captured Drive id is non-empty and contains no `/`. */
  lemma DriveIdShape(url: string)
    requires MatchGroup(url, DriveIdPattern).Some?
    ensures var id := MatchGroup(url, DriveIdPattern).value;
      |id| > 0 && '/' !in id
  {
    var id := MatchGroup(url, DriveIdPattern).value;
    var i :| 0 <= i <= |url| && LeftmostMatch(url, DriveIdPattern, i, id);
    SingleAlternative(url, Literal("/file/d/"), {'/'}, i);
  }

  /** The host part of the preview address holds no `/f`, so the first
      `/file/d/` in a preview address is the one after the host. */
  lemma NoDriveMarkerInHost(s: string, j: nat)
    requires StartsWith(s, DriveFileBase)
    requires j < 24
    ensures !PrefixAt(s, Literal("/file/d/"), j)
  {
    var p := Literal("/file/d/");
    assert p[0] == Char('/') && p[1] == Char('f');
    assert s[..|DriveFileBase|] == DriveFileBase;
    assert s[j] == DriveFileBase[j] && s[j + 1] == DriveFileBase[j + 1];
    assert !(DriveFileBase[j] == '/' && DriveFileBase[j + 1] == 'f');
  }

  /** Matching a preview address recovers the id it was built from. */
  lemma DrivePreviewMatches(id: string)
    requires |id| > 0 && '/' !in id
    ensures MatchGroup(DrivePreview(id), DriveIdPattern) == Some(id)
  {
    var s := DrivePreview(id);
    var p := Literal("/file/d/");
    assert s[..32] == DriveFileBase;
    assert OccursAt(s, "/file/d/", 24) by {
      assert s[24..32] == DriveFileBase[24..];
    }
    LiteralPrefixAt(s, "/file/d/", 24);
    assert s[32..32 + |id|] == id;
    assert s[32 + |id|] == '/';
    assert IsGroupAt(s, p, {'/'}, 24, id);
    SingleAlternative(s, p, {'/'}, 24);
    GroupUnique(s, p, {'/'}, 24, id, GroupAt(s, p, {'/'}, 24).value);
    forall j | 0 <= j < 24
      ensures MatchAt(s, DriveIdPattern, j).None?
    {
      NoDriveMarkerInHost(s, j);
      SingleAlternative(s, p, {'/'}, j);
    }
    LeftmostIsFound(s, DriveIdPattern, 24, id);
  }

  /** A preview address is itself a Drive address. */
  lemma DrivePreviewIsDrive(id: string)
    ensures IsGoogleDrive(DrivePreview(id))
  {
    var s := DrivePreview(id);
    assert s[..32] == DriveFileBase;
    assert DriveFileBase == "https://" + "drive.google.com" + "/file/d/";
    assert s[8..24] == "drive.google.com";
    OccursAtContains(s, "drive.google.com", 8);
  }

  /** Both players leave a Drive preview address as it is. */
  lemma DrivePreviewIsFixedPoint(id: string)
    requires |id| > 0 && '/' !in id
    ensures VideoEmbedUrl(DrivePreview(id)) == DrivePreview(id)
    ensures AudioEmbedUrl(DrivePreview(id)) == DrivePreview(id)
  {
    DrivePreviewIsDrive(id);
    DrivePreviewMatches(id);
  }

  /** The Drive rewrite is idempotent: embedding an embedded Drive address
      again changes nothing. */
  lemma DriveRewriteIdempotent(url: string)
    requires IsGoogleDrive(url) && MatchGroup(url, DriveIdPattern).Some?
    ensures VideoEmbedUrl(VideoEmbedUrl(url)) == VideoEmbedUrl(url)
    ensures AudioEmbedUrl(AudioEmbedUrl(url)) == AudioEmbedUrl(url)
  {
    DriveIdShape(url);
    DrivePreviewIsFixedPoint(MatchGroup(url, DriveIdPattern).value);
  }

  /** Wherever `youtu.be/` occurs, the loose alternative matches too. */
  lemma LooseAcceptsStrictPrefix(s: string, i: nat)
    ensures PrefixAt(s, Literal("youtu.be/"), i) ==> PrefixAt(s, Literal("youtu") + [Dot] + Literal("be/"), i)
  {
    var strict := Literal("youtu.be/");
    var loose := Literal("youtu") + [Dot] + Literal("be/");
    assert |strict| == |loose| == 9;
    if PrefixAt(s, strict, i) {
      forall k | 0 <= k < 9
        ensures AtomMatches(loose[k], s[i + k])
      {
        if k != 5 {
          assert loose[k] == strict[k];
        } else {
          assert AtomMatches(strict[5], s[i + 5]);
          assert s[i + 5] == '.';
        }
      }
    }
  }

  /** Where the video pattern's attempt succeeds, the audio pattern's attempt
      succeeds with the same group: the loose `.` accepts the `.` of
      `youtu.be`. */
  lemma LooseAcceptsStrict(s: string, i: nat)
    requires MatchAt(s, YouTubeIdPattern, i).Some?
    ensures MatchAt(s, LooseYouTubeIdPattern, i) == MatchAt(s, YouTubeIdPattern, i)
  {
    var stops := {'&', '?'};
    var v := Literal("v=");
    var strict := Literal("youtu.be/");
    var loose := Literal("youtu") + [Dot] + Literal("be/");
    LooseAcceptsStrictPrefix(s, i);
    TwoAlternatives(s, v, strict, stops, i);
    TwoAlternatives(s, v, loose, stops, i);
    if GroupAt(s, v, stops, i).None? {
      GroupUnique(s, strict, stops, i, GroupAt(s, strict, stops, i).value, GroupAt(s, loose, stops, i).value);
    }
  }

  /** The audio pattern captures where the video pattern does not: at the
      start of `youtu-be/z` the loose `.` accepts the `-`. */
  lemma LooseAcceptsMore()
    ensures MatchAt("youtu-be/z", YouTubeIdPattern, 0).None?
    ensures MatchGroup("youtu-be/z", LooseYouTubeIdPattern) == Some("z")
  {
    var s := "youtu-be/z";
    var stops := {'&', '?'};
    var v := Literal("v=");
    var strict := Literal("youtu.be/");
    var loose := Literal("youtu") + [Dot] + Literal("be/");
    assert v[0] == Char('v');
    assert strict[5] == Char('.');
    TwoAlternatives(s, v, strict, stops, 0);
    TwoAlternatives(s, v, loose, stops, 0);
    assert PrefixAt(s, loose, 0);
    assert s[9..10] == "z";
    assert IsGroupAt(s, loose, stops, 0, "z");
    GroupUnique(s, loose, stops, 0, "z", GroupAt(s, loose, stops, 0).value);
    LeftmostIsFound(s, LooseYouTubeIdPattern, 0, "z");
  }

  /** A URL on which the two patterns capture different ids. */
  const DivergentUrl := "youtu-be/a?v=b"

  /** No attempt of the video pattern before the `v=` of `DivergentUrl`
      succeeds. */
  lemma NoVideoMatchBeforeQuery(j: nat)
    requires j < 11
    ensures MatchAt(DivergentUrl, YouTubeIdPattern, j).None?
  {
    var s := DivergentUrl;
    var v := Literal("v=");
    var strict := Literal("youtu.be/");
    assert v[0] == Char('v') && strict[0] == Char('y') && strict[5] == Char('.');
    TwoAlternatives(s, v, strict, {'&', '?'}, j);
    if j == 0 {
      assert !AtomMatches(v[0], s[0]) && !AtomMatches(strict[5], s[5]);
    } else {
      assert !AtomMatches(v[0], s[j]) && !AtomMatches(strict[0], s[j]);
    }
    assert !PrefixAt(s, v, j) && !PrefixAt(s, strict, j);
  }

  /** The video pattern captures the id after `v=` in `DivergentUrl`. */
  lemma VideoCaptureOfDivergentUrl()
    ensures MatchGroup(DivergentUrl, YouTubeIdPattern) == Some("b")
  {
    var s := DivergentUrl;
    var stops := {'&', '?'};
    var v := Literal("v=");
    forall j | 0 <= j < 11
      ensures MatchAt(s, YouTubeIdPattern, j).None?
    {
      NoVideoMatchBeforeQuery(j);
    }
    TwoAlternatives(s, v, Literal("youtu.be/"), stops, 11);
    assert PrefixAt(s, v, 11);
    assert s[13..14] == "b";
    assert IsGroupAt(s, v, stops, 11, "b");
    GroupUnique(s, v, stops, 11, "b", GroupAt(s, v, stops, 11).value);
    LeftmostIsFound(s, YouTubeIdPattern, 11, "b");
  }

  /** The audio pattern matches `DivergentUrl` at its very start. */
  lemma AudioCaptureOfDivergentUrl()
    ensures MatchGroup(DivergentUrl, LooseYouTubeIdPattern) == Some("a")
  {
    var s := DivergentUrl;
    var stops := {'&', '?'};
    var v := Literal("v=");
    var loose := Literal("youtu") + [Dot] + Literal("be/");
    assert v[0] == Char('v');
    TwoAlternatives(s, v, loose, stops, 0);
    assert PrefixAt(s, loose, 0);
    assert s[9..10] == "a";
    assert IsGroupAt(s, loose, stops, 0, "a");
    GroupUnique(s, loose, stops, 0, "a", GroupAt(s, loose, stops, 0).value);
    LeftmostIsFound(s, LooseYouTubeIdPattern, 0, "a");
  }

  /** The two patterns can capture different ids from one URL: the audio
      pattern's `.` lets it match at the very start, before the `v=` the
      video pattern has to wait for. */
  lemma LooseCapturesDifferentId()
    ensures MatchGroup(DivergentUrl, YouTubeIdPattern) == Some("b")
    ensures MatchGroup(DivergentUrl, LooseYouTubeIdPattern) == Some("a")
  {
    VideoCaptureOfDivergentUrl();
    AudioCaptureOfDivergentUrl();
  }

  // ---------------------------------------------------------------------
  // The two YouTube link forms the id pattern is written for
  // ---------------------------------------------------------------------

  const WatchBase := "https://www.youtube.com/watch?v="
  const ShortLinkBase := "https://youtu.be/"

  /** Neither id pattern succeeds inside the fixed part of a watch link
      before its `v=`. */
  lemma NoIdBeforeWatchQuery(s: string, j: nat)
    requires StartsWith(s, WatchBase) && j < 30
    ensures MatchAt(s, YouTubeIdPattern, j).None?
    ensures MatchAt(s, LooseYouTubeIdPattern, j).None?
  {
    var stops := {'&', '?'};
    var v := Literal("v=");
    var strict := Literal("youtu.be/");
    var loose := Literal("youtu") + [Dot] + Literal("be/");
    assert v[0] == Char('v') && strict[0] == Char('y') && loose[0] == Char('y');
    assert strict[6] == Char('b') && loose[6] == Char('b');
    assert s[..|WatchBase|] == WatchBase;
    assert s[j] == WatchBase[j];
    assert WatchBase[j] != 'v';
    assert WatchBase[j] == 'y' ==> j == 12;
    assert s[18] == WatchBase[18] != 'b';
    TwoAlternatives(s, v, strict, stops, j);
    TwoAlternatives(s, v, loose, stops, j);
  }

  /** Nothing before the id of a short link matches either id pattern. */
  lemma NoIdBeforeShortPath(s: string, j: nat)
    requires StartsWith(s, ShortLinkBase) && j < 8
    ensures MatchAt(s, YouTubeIdPattern, j).None?
    ensures MatchAt(s, LooseYouTubeIdPattern, j).None?
  {
    var stops := {'&', '?'};
    var v := Literal("v=");
    var strict := Literal("youtu.be/");
    var loose := Literal("youtu") + [Dot] + Literal("be/");
    assert v[0] == Char('v') && strict[0] == Char('y') && loose[0] == Char('y');
    assert s[..|ShortLinkBase|] == ShortLinkBase;
    assert s[j] == ShortLinkBase[j];
    assert ShortLinkBase[j] != 'v' && ShortLinkBase[j] != 'y';
    TwoAlternatives(s, v, strict, stops, j);
    TwoAlternatives(s, v, loose, stops, j);
  }

  /** An id free of `&` and `?` is what both patterns capture from a watch
      link. */
  lemma WatchLinkCapture(id: string)
    requires |id| > 0 && '&' !in id && '?' !in id
    ensures MatchGroup(WatchBase + id, YouTubeIdPattern) == Some(id)
    ensures MatchGroup(WatchBase + id, LooseYouTubeIdPattern) == Some(id)
  {
    var s := WatchBase + id;
    var stops := {'&', '?'};
    var v := Literal("v=");
    assert s[..|WatchBase|] == WatchBase;
    assert OccursAt(s, "v=", 30) by {
      assert s[30..32] == WatchBase[30..];
    }
    LiteralPrefixAt(s, "v=", 30);
    assert s[32..32 + |id|] == id;
    assert IsGroupAt(s, v, stops, 30, id);
    GroupUnique(s, v, stops, 30, id, GroupAt(s, v, stops, 30).value);
    TwoAlternatives(s, v, Literal("youtu.be/"), stops, 30);
    TwoAlternatives(s, v, Literal("youtu") + [Dot] + Literal("be/"), stops, 30);
    forall j | 0 <= j < 30
      ensures MatchAt(s, YouTubeIdPattern, j).None? && MatchAt(s, LooseYouTubeIdPattern, j).None?
    {
      NoIdBeforeWatchQuery(s, j);
    }
    LeftmostIsFound(s, YouTubeIdPattern, 30, id);
    LeftmostIsFound(s, LooseYouTubeIdPattern, 30, id);
  }

  /** An id free of `&` and `?` is what both patterns capture from a short
      link. */
  lemma ShortLinkCapture(id: string)
    requires |id| > 0 && '&' !in id && '?' !in id
    ensures MatchGroup(ShortLinkBase + id, YouTubeIdPattern) == Some(id)
    ensures MatchGroup(ShortLinkBase + id, LooseYouTubeIdPattern) == Some(id)
  {
    var s := ShortLinkBase + id;
    var stops := {'&', '?'};
    var v := Literal("v=");
    var strict := Literal("youtu.be/");
    var loose := Literal("youtu") + [Dot] + Literal("be/");
    assert v[0] == Char('v');
    assert s[..|ShortLinkBase|] == ShortLinkBase;
    assert s[8] == 'y' && s[9] == 'o';
    assert OccursAt(s, "youtu.be/", 8) by {
      assert s[8..17] == ShortLinkBase[8..];
    }
    LiteralPrefixAt(s, "youtu.be/", 8);
    assert s[17..17 + |id|] == id;
    assert IsGroupAt(s, strict, stops, 8, id);
    LooseAcceptsStrictPrefix(s, 8);
    assert IsGroupAt(s, loose, stops, 8, id);
    GroupUnique(s, strict, stops, 8, id, GroupAt(s, strict, stops, 8).value);
    GroupUnique(s, loose, stops, 8, id, GroupAt(s, loose, stops, 8).value);
    TwoAlternatives(s, v, strict, stops, 8);
    TwoAlternatives(s, v, loose, stops, 8);
    forall j | 0 <= j < 8
      ensures MatchAt(s, YouTubeIdPattern, j).None? && MatchAt(s, LooseYouTubeIdPattern, j).None?
    {
      NoIdBeforeShortPath(s, j);
    }
    LeftmostIsFound(s, YouTubeIdPattern, 8, id);
    LeftmostIsFound(s, LooseYouTubeIdPattern, 8, id);
  }

  /** A watch link is a YouTube address. */
  lemma WatchLinkIsYouTube(id: string)
    ensures IsYouTube(WatchBase + id)
  {
    var s := WatchBase + id;
    assert s[..|WatchBase|] == WatchBase;
    assert WatchBase == "https://www." + "youtube.com" + "/watch?v=";
    assert s[12..23] == "youtube.com";
    OccursAtContains(s, "youtube.com", 12);
  }

  /** Both players show a plain watch link through the YouTube embed
      player, with the link's own id. */
  lemma WatchLinkPlays(id: string, baseUrl: string)
    requires |id| > 0 && '&' !in id && '?' !in id
    requires var url := WatchBase + id;
      !IsGoogleVids(url) && !IsGoogleDrive(url) && !Contains(url, "/embed/")
    ensures VideoPlayer(WatchBase + id, baseUrl) == Iframe(YouTubeEmbed(id))
    ensures AudioPlayer(WatchBase + id, baseUrl) == Iframe(YouTubeEmbed(id))
  {
    WatchLinkIsYouTube(id);
    WatchLinkCapture(id);
  }

  /** A Google Vids play link is switched to its preview page: the first
      `/play` becomes `/preview` and the rest of the address is kept. */
  lemma VidsPlayBecomesPreview(url: string)
    requires IsGoogleVids(url) && !Contains(url, "/preview") && Contains(url, "/play")
    requires !(IsGoogleDrive(url) && MatchGroup(url, DriveIdPattern).Some?)
    ensures var r := VideoEmbedUrl(url);
      var i := IndexOf(url, "/play").value;
      && OccursAt(r, "/preview", i)
      && r[..i] == url[..i]
      && r[i + 8..] == url[i + 5..]
  {
  }
}
