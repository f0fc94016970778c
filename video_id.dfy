/**
 * `extract_video_id` of api/index.py: three regular expressions
 * `v=([\w-]+)`, `/v/([\w-]+)` and `youtu\.be/([\w-]+)` are tried in that
 * order with `re.search`, and group 1 of the first one that matches is
 * returned; `None` when none matches.
 *
 * A search for `lit([\w-]+)` is modelled without a regex engine: the match
 * starts at the leftmost index where `lit` occurs followed by at least one
 * id character, and the greedy `+` captures the longest run of id
 * characters after `lit`.
 */
module VideoId {
  import opened Wrappers

  /** `[\w-]`, with `\w` restricted to the ASCII word characters. */
  predicate IsIdChar(c: char) {
    ('a' <= c <= 'z') || ('A' <= c <= 'Z') || ('0' <= c <= '9') || c == '_' || c == '-'
  }

  predicate AllIdChars(s: string) {
    forall k :: 0 <= k < |s| ==> IsIdChar(s[k])
  }

  /** The literal parts of the three patterns, in the order they are tried. */
  const WatchPrefix: string := "v="
  const EmbedPrefix: string := "/v/"
  const ShortPrefix: string := "youtu.be/"
  const Patterns: seq<string> := [WatchPrefix, EmbedPrefix, ShortPrefix]

  /** The pattern `lit([\w-]+)` matches `url` starting at index `i`. */
  predicate MatchesAt(url: string, lit: string, i: nat) {
    i + |lit| < |url| && url[i..i + |lit|] == lit && IsIdChar(url[i + |lit|])
  }

  /**
   * Declarative description of what `re.search(lit + r'([\w-]+)', url)`
   * reports: the match at `i` is the leftmost one, and `id` is its group 1,
   * a non-empty run of id characters that the greedy `+` cannot extend.
   */
  ghost predicate IsCaptureAt(url: string, lit: string, i: nat, id: string) {
    var p := i + |lit|;
    && MatchesAt(url, lit, i)
    && (forall j: nat :: j < i ==> !MatchesAt(url, lit, j))
    && p + |id| <= |url|
    && url[p..p + |id|] == id
    && |id| > 0
    && AllIdChars(id)
    && (p + |id| == |url| || !IsIdChar(url[p + |id|]))
  }

  /** Length of the longest run of id characters in `url` starting at `p`. */
  function RunLength(url: string, p: nat): (n: nat)
    requires p <= |url|
    ensures p + n <= |url|
    ensures forall k :: p <= k < p + n ==> IsIdChar(url[k])
    ensures p + n == |url| || !IsIdChar(url[p + n])
    decreases |url| - p
  {
    if p < |url| && IsIdChar(url[p]) then 1 + RunLength(url, p + 1) else 0
  }

  /** The leftmost index at or after `k` where `lit([\w-]+)` matches. */
  function FindFrom(url: string, lit: string, k: nat): (r: Option<nat>)
    ensures r.Some? ==> k <= r.value && MatchesAt(url, lit, r.value)
    ensures r.Some? ==> forall j: nat :: k <= j < r.value ==> !MatchesAt(url, lit, j)
    ensures r.None? ==> forall j: nat :: k <= j ==> !MatchesAt(url, lit, j)
    decreases |url| - k
  {
    if |url| <= k + |lit| then None
    else if MatchesAt(url, lit, k) then Some(k)
    else FindFrom(url, lit, k + 1)
  }

  /** Group 1 of `re.search(lit + r'([\w-]+)', url)`, or `None`. */
  function Search(url: string, lit: string): (r: Option<string>)
    ensures r.None? <==> forall j: nat :: !MatchesAt(url, lit, j)
    ensures r.Some? ==> exists i: nat :: IsCaptureAt(url, lit, i, r.value)
  {
    match FindFrom(url, lit, 0)
    case None => None
    case Some(i) =>
      var p := i + |lit|;
      var id := url[p..p + RunLength(url, p)];
      assert IsCaptureAt(url, lit, i, id);
      Some(id)
  }

  /** The leftmost match and its greedy capture are unique. */
  lemma CaptureUnique(url: string, lit: string, i: nat, id: string, i': nat, id': string)
    requires IsCaptureAt(url, lit, i, id) && IsCaptureAt(url, lit, i', id')
    ensures i == i' && id == id'
  {
    var p := i + |lit|;
    RunIsIdChars(url, p, id);
    RunIsIdChars(url, p, id');
    assert |id| == |id'|;
  }

  /** A capture read at `p` makes every position it covers an id character. */
  lemma RunIsIdChars(url: string, p: nat, id: string)
    requires p + |id| <= |url| && url[p..p + |id|] == id && AllIdChars(id)
    ensures forall k :: p <= k < p + |id| ==> IsIdChar(url[k])
  {
    forall k | p <= k < p + |id| ensures IsIdChar(url[k]) {
      assert url[k] == id[k - p];
    }
  }

  /** `Search` reports exactly the capture that the declarative description singles out. */
  lemma SearchIff(url: string, lit: string, id: string)
    ensures Search(url, lit) == Some(id) <==> exists i: nat :: IsCaptureAt(url, lit, i, id)
  {
  }

  /** None of the first `n` patterns of `lits` matches anywhere in `url`. */
  ghost predicate NoEarlierMatch(url: string, lits: seq<string>, n: nat)
    requires n <= |lits|
  {
    forall m: nat, j: nat :: m < n ==> !MatchesAt(url, lits[m], j)
  }

  /** The `for pattern in patterns` loop: the first pattern that matches wins. */
  function FirstMatch(url: string, lits: seq<string>): (r: Option<string>)
    ensures r.None? <==> forall n: nat, j: nat :: 0 <= n < |lits| ==> !MatchesAt(url, lits[n], j)
    ensures r.Some? ==>
      exists n: nat, i: nat :: n < |lits| && NoEarlierMatch(url, lits, n) && IsCaptureAt(url, lits[n], i, r.value)
    decreases |lits|
  {
    if lits == [] then None
    else
      match Search(url, lits[0])
      case Some(id) =>
        assert NoEarlierMatch(url, lits, 0);
        assert exists i: nat :: IsCaptureAt(url, lits[0], i, id);
        Some(id)
      case None =>
        var r := FirstMatch(url, lits[1..]);
        assert r.Some? ==>
          exists n: nat, i: nat :: n < |lits| && NoEarlierMatch(url, lits, n) && IsCaptureAt(url, lits[n], i, r.value) by {
          if r.Some? {
            var n: nat, i: nat :| n < |lits[1..]| && NoEarlierMatch(url, lits[1..], n) && IsCaptureAt(url, lits[1..][n], i, r.value);
            forall m: nat, j: nat | m < n + 1 ensures !MatchesAt(url, lits[m], j) {
              if 0 < m { assert lits[m] == lits[1..][m - 1]; }
            }
            assert NoEarlierMatch(url, lits, n + 1);
            assert IsCaptureAt(url, lits[n + 1], i, r.value);
          }
        }
        r
  }

  /** `extract_video_id(url)`. */
  function ExtractVideoId(url: string): (r: Option<string>)
    ensures r.None? <==>
      forall j: nat :: !MatchesAt(url, WatchPrefix, j) && !MatchesAt(url, EmbedPrefix, j) && !MatchesAt(url, ShortPrefix, j)
    ensures r.Some? ==> |r.value| > 0 && AllIdChars(r.value)
    ensures r.Some? ==> exists lit, i: nat :: lit in Patterns && IsCaptureAt(url, lit, i, r.value)
  {
    assert Patterns[0] == WatchPrefix && Patterns[1] == EmbedPrefix && Patterns[2] == ShortPrefix;
    FirstMatch(url, Patterns)
  }

  /** `v=` takes priority: its leftmost match decides, wherever `/v/` or `youtu.be/` occur. */
  lemma WatchPatternFirst(url: string, i: nat, id: string)
    requires IsCaptureAt(url, WatchPrefix, i, id)
    ensures ExtractVideoId(url) == Some(id)
  {
    SearchIff(url, WatchPrefix, id);
  }

  /** `/v/` decides only when `v=` does not match anywhere. */
  lemma EmbedPatternSecond(url: string, i: nat, id: string)
    requires forall j: nat :: !MatchesAt(url, WatchPrefix, j)
    requires IsCaptureAt(url, EmbedPrefix, i, id)
    ensures ExtractVideoId(url) == Some(id)
  {
    assert Search(url, WatchPrefix) == None;
    SearchIff(url, EmbedPrefix, id);
    assert Patterns[1..] == [EmbedPrefix, ShortPrefix];
    assert FirstMatch(url, Patterns) == FirstMatch(url, [EmbedPrefix, ShortPrefix]);
  }

  /** `youtu.be/` decides only when neither earlier pattern matches anywhere. */
  lemma ShortPatternLast(url: string, i: nat, id: string)
    requires forall j: nat :: !MatchesAt(url, WatchPrefix, j) && !MatchesAt(url, EmbedPrefix, j)
    requires IsCaptureAt(url, ShortPrefix, i, id)
    ensures ExtractVideoId(url) == Some(id)
  {
    assert Search(url, WatchPrefix) == None;
    assert Search(url, EmbedPrefix) == None;
    SearchIff(url, ShortPrefix, id);
    assert Patterns[1..] == [EmbedPrefix, ShortPrefix];
    assert [EmbedPrefix, ShortPrefix][1..] == [ShortPrefix];
    assert FirstMatch(url, Patterns) == FirstMatch(url, [EmbedPrefix, ShortPrefix]);
    assert FirstMatch(url, [EmbedPrefix, ShortPrefix]) == FirstMatch(url, [ShortPrefix]);
  }

  /** A character that `[\w-]` rejects never occurs in a run of id characters. */
  lemma NotInIdRun(s: string, c: char)
    requires AllIdChars(s) && !IsIdChar(c)
    ensures c !in s
  {
  }

  /**
   * No match of `lit([\w-]+)` can start before `stop` when the `k`-th
   * character of `lit` is absent from the first `stop + k` characters of `url`.
   */
  lemma NoMatchBefore(url: string, lit: string, k: nat, stop: nat)
    requires k < |lit| && stop + k <= |url| && lit[k] !in url[..stop + k]
    ensures forall j: nat :: j < stop ==> !MatchesAt(url, lit, j)
  {
  }

  /**
   * No match of `lit([\w-]+)` can place its `k`-th literal character at or
   * after `start` when that character is absent from `url[start..]`.
   */
  lemma NoMatchFrom(url: string, lit: string, k: nat, start: nat)
    requires k < |lit| && start <= |url| && lit[k] !in url[start..]
    ensures forall j: nat :: start <= j + k ==> !MatchesAt(url, lit, j)
  {
  }

  /** The three URL forms the docstring of `extract_video_id` lists. */
  function WatchUrl(id: string): string { "https://www.youtube.com/watch?" + WatchPrefix + id }
  function EmbedUrl(id: string): string { "https://www.youtube.com" + EmbedPrefix + id }
  function ShortUrl(id: string): string { "https://" + ShortPrefix + id }

  /** `https://www.youtube.com/watch?v=<id>` gives back `id`, whatever its length. */
  lemma {:induction false} WatchUrlRoundTrip(id: string)
    requires |id| > 0 && AllIdChars(id)
    ensures ExtractVideoId(WatchUrl(id)) == Some(id)
  {
    var url := WatchUrl(id);
    assert url[..31] == "https://www.youtube.com/watch?v";
    NoMatchBefore(url, WatchPrefix, 1, 30);
    assert url[30..32] == WatchPrefix;
    assert url[32..32 + |id|] == id;
    assert IsCaptureAt(url, WatchPrefix, 30, id);
    WatchPatternFirst(url, 30, id);
  }

  /** `https://www.youtube.com/v/<id>` gives back `id`, whatever its length. */
  lemma {:induction false} EmbedUrlRoundTrip(id: string)
    requires |id| > 0 && AllIdChars(id)
    ensures ExtractVideoId(EmbedUrl(id)) == Some(id)
  {
    var url := EmbedUrl(id);
    NotInIdRun(id, '=');
    assert url[0..] == url;
    assert url == "https://www.youtube.com/v/" + id;
    NoMatchFrom(url, WatchPrefix, 1, 0);
    assert url[..24] == "https://www.youtube.com/";
    NoMatchBefore(url, EmbedPrefix, 1, 23);
    assert url[23..26] == EmbedPrefix;
    assert url[26..26 + |id|] == id;
    assert IsCaptureAt(url, EmbedPrefix, 23, id);
    EmbedPatternSecond(url, 23, id);
  }

  /** `https://youtu.be/<id>` gives back `id`, whatever its length. */
  lemma {:induction false} ShortUrlRoundTrip(id: string)
    requires |id| > 0 && AllIdChars(id)
    ensures ExtractVideoId(ShortUrl(id)) == Some(id)
  {
    var url := ShortUrl(id);
    NotInIdRun(id, '=');
    NotInIdRun(id, '/');
    assert url[0..] == url;
    assert url == "https://youtu.be/" + id;
    NoMatchFrom(url, WatchPrefix, 1, 0);
    assert url[..17] == "https://youtu.be/";
    NoMatchBefore(url, EmbedPrefix, 1, 16);
    assert url[17..] == id;
    NoMatchFrom(url, EmbedPrefix, 2, 17);
    assert url[..8] == "https://";
    NoMatchBefore(url, ShortPrefix, 0, 8);
    assert url[8..17] == ShortPrefix;
    assert url[17..17 + |id|] == id;
    assert IsCaptureAt(url, ShortPrefix, 8, id);
    ShortPatternLast(url, 8, id);
  }

  /** `v=` wins even when a `youtu.be/` link comes first in the string. */
  lemma WatchBeatsEarlierShortLink()
    ensures ExtractVideoId("https://youtu.be/abc?v=xyz") == Some("xyz")
  {
    var url := "https://youtu.be/abc?v=xyz";
    assert url[..22] == "https://youtu.be/abc?v";
    NoMatchBefore(url, WatchPrefix, 1, 21);
    assert url[21..23] == WatchPrefix;
    assert url[23..26] == "xyz";
    assert IsCaptureAt(url, WatchPrefix, 21, "xyz");
    WatchPatternFirst(url, 21, "xyz");
  }

  /** There is no domain check and no length rule, and the run stops at the first non-id character. */
  lemma NoDomainOrLengthCheck()
    ensures ExtractVideoId("https://example.com/watch?v=a-b_c&t=42") == Some("a-b_c")
  {
    var url := "https://example.com/watch?v=a-b_c&t=42";
    assert url[..27] == "https://example.com/watch?v";
    NoMatchBefore(url, WatchPrefix, 1, 26);
    assert url[26..28] == WatchPrefix;
    assert url[28..33] == "a-b_c";
    assert IsCaptureAt(url, WatchPrefix, 26, "a-b_c");
    WatchPatternFirst(url, 26, "a-b_c");
  }

  /** Text with none of the three literals gives `None`. */
  lemma NotAUrlHasNoId()
    ensures ExtractVideoId("not a url") == None
  {
    var url := "not a url";
    assert url[0..] == url;
    NoMatchFrom(url, WatchPrefix, 1, 0);
    NoMatchFrom(url, EmbedPrefix, 0, 0);
    NoMatchFrom(url, ShortPrefix, 8, 0);
  }
}
