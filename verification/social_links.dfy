/**
 * The profile form's five social-link rules. Each is an anchored regular expression of the shape
 * `^(https?://)?(www\.)?HOST[SEG]+/?$`; the field also accepts the empty string. The language is
 * given twice: as a predicate that asks for a decomposition of the link into its five parts, and
 * as a left-to-right matcher that strips each part in turn. The two are proved to agree.
 */
module SocialLinks {
  import opened Text

  /** `p` is a prefix of `s`. */
  predicate StartsWith(s: string, p: string) {
    |p| <= |s| && s[..|p|] == p
  }

  /** `s` without the prefix `p` when it has it. */
  function StripPrefix(s: string, p: string): (r: string)
    ensures StartsWith(s, p) ==> s == p + r
    ensures !StartsWith(s, p) ==> r == s
  {
    if StartsWith(s, p) then
      assert s == s[..|p|] + s[|p|..];
      s[|p|..]
    else s
  }

  /** One or more characters of the segment class. */
  predicate IsSegment(s: string, seg: char -> bool) {
    s != [] && forall i | 0 <= i < |s| :: seg(s[i])
  }

  /** A link pattern: its fixed host and path prefix, and the class of its last segment's characters. */
  datatype LinkPattern = LinkPattern(host: string, seg: char -> bool)

  /** The patterns the model relies on: the host starts with neither `h` nor `w`, and `/` is no segment character. */
  predicate WellFormed(p: LinkPattern) {
    p.host != [] && p.host[0] != 'h' && p.host[0] != 'w' && !p.seg('/')
  }

  /** The optional scheme `(https?://)?`. */
  predicate IsScheme(x: string) { x == "" || x == "http://" || x == "https://" }

  /** The optional `(www\.)?`. */
  predicate IsWww(x: string) { x == "" || x == "www." }

  /** The optional trailing `/?`. */
  predicate IsSlash(x: string) { x == "" || x == "/" }

  /** The language of the pattern: `s` splits into scheme, `www.`, host, segment and slash. */
  ghost predicate InLanguage(s: string, p: LinkPattern) {
    exists scheme: string, www: string, segment: string, slash: string
      | IsScheme(scheme) && IsWww(www) && IsSegment(segment, p.seg) && IsSlash(slash)
      :: s == scheme + www + p.host + segment + slash
  }

  /** `s` without a leading `https://` or `http://`. */
  function StripScheme(s: string): string {
    if StartsWith(s, "https://") then s[8..] else StripPrefix(s, "http://")
  }

  /** `s` without a trailing `/`. */
  function StripSlash(s: string): (r: string)
    ensures s != [] && s[|s| - 1] == '/' ==> s == r + "/"
    ensures !(s != [] && s[|s| - 1] == '/') ==> r == s
  {
    if s != [] && s[|s| - 1] == '/' then s[..|s| - 1] else s
  }

  /** The left-to-right matcher: strip the optional parts, then expect the host and one segment. */
  predicate Matches(s: string, p: LinkPattern) {
    var rest := StripPrefix(StripScheme(s), "www.");
    StartsWith(rest, p.host) && IsSegment(StripSlash(rest[|p.host|..]), p.seg)
  }

  // ---------------------------------------------------------------------------------------------
  // The five rules

  /** `[a-zA-Z0-9.]` */
  predicate FacebookChar(c: char) { IsAlnum(c) || c == '.' }

  /** `[a-zA-Z0-9_-]` */
  predicate HandleChar(c: char) { IsAlnum(c) || c == '_' || c == '-' }

  const Facebook := LinkPattern("facebook.com/", FacebookChar)
  const Telegram := LinkPattern("t.me/", HandleChar)
  const Reddit := LinkPattern("reddit.com/u/", HandleChar)
  const LinkedIn := LinkPattern("linkedin.com/in/", HandleChar)
  const GitHub := LinkPattern("github.com/", HandleChar)

  /** The five rules meet the conditions the matcher relies on. */
  lemma RulesWellFormed()
    ensures WellFormed(Facebook) && WellFormed(Telegram) && WellFormed(Reddit)
    ensures WellFormed(LinkedIn) && WellFormed(GitHub)
  {
  }

  /** `.regex(pattern).or(z.literal(""))`: the field is empty or matches. */
  predicate LinkFieldOk(s: string, p: LinkPattern) {
    s == "" || Matches(s, p)
  }

  // ---------------------------------------------------------------------------------------------
  // The matcher decides the language

  /** Stripping the scheme of `scheme + t`, where `t` starts with neither `h` nor is empty, leaves `t`. */
  lemma StripSchemeOf(scheme: string, t: string)
    requires IsScheme(scheme)
    requires t != [] && t[0] != 'h'
    ensures StripScheme(scheme + t) == t
  {
    var s := scheme + t;
    if scheme == "https://" {
      assert s[..8] == scheme;
      assert s[8..] == t;
    } else if scheme == "http://" {
      assert s[..7] == scheme;
      assert s[4] == ':';
      assert s[7..] == t;
    } else {
      assert s == t && s[0] != 'h';
    }
  }

  /** Stripping `www.` from `www + t`, where `t` does not start with `w`, leaves `t`. */
  lemma StripWwwOf(www: string, t: string)
    requires IsWww(www)
    requires t != [] && t[0] != 'w'
    ensures StripPrefix(www + t, "www.") == t
  {
    var s := www + t;
    if www == "www." {
      assert s[..4] == www;
    } else {
      assert s == t && s[0] != 'w';
    }
  }

  /** Stripping the trailing slash of `segment + slash` leaves the segment. */
  lemma StripSlashOf(segment: string, slash: string, seg: char -> bool)
    requires IsSegment(segment, seg) && !seg('/') && IsSlash(slash)
    ensures StripSlash(segment + slash) == segment
  {
    var s := segment + slash;
    if slash == "/" {
      assert s[..|s| - 1] == segment;
    } else {
      assert s == segment && seg(s[|s| - 1]);
    }
  }

  /** The parts of a decomposition, put together, are accepted by the matcher. */
  lemma PartsMatched(scheme: string, www: string, segment: string, slash: string, p: LinkPattern)
    requires WellFormed(p)
    requires IsScheme(scheme) && IsWww(www) && IsSegment(segment, p.seg) && IsSlash(slash)
    ensures Matches(scheme + www + p.host + segment + slash, p)
  {
    var tail := segment + slash;
    var afterWww := p.host + tail;
    var afterScheme := www + afterWww;
    Regroup(scheme, www, p.host, segment, slash);
    assert afterScheme[0] == if www == "" then p.host[0] else 'w';
    StripSchemeOf(scheme, afterScheme);
    StripWwwOf(www, afterWww);
    assert afterWww[..|p.host|] == p.host && afterWww[|p.host|..] == tail;
    StripSlashOf(segment, slash, p.seg);
  }

  /** Every string of the language is accepted by the matcher. */
  lemma LanguageMatched(s: string, p: LinkPattern)
    requires WellFormed(p)
    requires InLanguage(s, p)
    ensures Matches(s, p)
  {
    var scheme: string, www: string, segment: string, slash: string :|
      IsScheme(scheme) && IsWww(www) && IsSegment(segment, p.seg) && IsSlash(slash) &&
      s == scheme + www + p.host + segment + slash;
    PartsMatched(scheme, www, segment, slash, p);
  }

  /** The scheme `StripScheme` removes. */
  lemma SchemeRemoved(s: string) returns (scheme: string)
    ensures IsScheme(scheme) && s == scheme + StripScheme(s)
  {
    if StartsWith(s, "https://") {
      scheme := "https://";
      assert s == s[..8] + s[8..];
    } else if StartsWith(s, "http://") {
      scheme := "http://";
    } else {
      scheme := "";
    }
  }

  /** The `www.` that stripping removes. */
  lemma WwwRemoved(s: string) returns (www: string)
    ensures IsWww(www) && s == www + StripPrefix(s, "www.")
  {
    www := if StartsWith(s, "www.") then "www." else "";
  }

  /** The slash `StripSlash` removes. */
  lemma SlashRemoved(s: string) returns (slash: string)
    ensures IsSlash(slash) && s == StripSlash(s) + slash
  {
    slash := if s != [] && s[|s| - 1] == '/' then "/" else "";
  }

  /** Every string the matcher accepts is in the language: the stripped parts are the decomposition. */
  lemma MatchedInLanguage(s: string, p: LinkPattern)
    requires Matches(s, p)
    ensures InLanguage(s, p)
  {
    var scheme := SchemeRemoved(s);
    var afterScheme := StripScheme(s);
    var www := WwwRemoved(afterScheme);
    var afterWww := StripPrefix(afterScheme, "www.");
    var tail := afterWww[|p.host|..];
    assert afterWww == p.host + tail;
    var slash := SlashRemoved(tail);
    var segment := StripSlash(tail);
    assert IsSegment(segment, p.seg);
    assert s == scheme + (www + (p.host + (segment + slash)));
    Regroup(scheme, www, p.host, segment, slash);
  }

  /** Concatenation regrouped from the right to the left. */
  lemma Regroup(a: string, b: string, c: string, d: string, e: string)
    ensures a + (b + (c + (d + e))) == a + b + c + d + e
  {
  }

  /** The matcher and the language agree on every string, for every well-formed pattern. */
  lemma MatchesIffInLanguage(s: string, p: LinkPattern)
    requires WellFormed(p)
    ensures Matches(s, p) <==> InLanguage(s, p)
  {
    if Matches(s, p) { MatchedInLanguage(s, p); }
    if InLanguage(s, p) { LanguageMatched(s, p); }
  }

  /** A path of two segments is rejected: `/` is no segment character. */
  lemma NestedPathRejected(p: LinkPattern, a: string, b: string)
    requires WellFormed(p)
    requires b != [] && p.seg(b[|b| - 1])
    ensures !Matches(p.host + a + "/" + b, p)
  {
    var tail := a + "/" + b;
    var s := p.host + tail;
    assert p.host + a + "/" + b == s;
    var empty: string := [];
    assert s[0] == p.host[0];
    StripSchemeOf(empty, s);
    assert empty + s == s;
    StripWwwOf(empty, s);
    assert s[..|p.host|] == p.host && s[|p.host|..] == tail;
    assert tail[|tail| - 1] == b[|b| - 1];
    assert StripSlash(tail) == tail;
    assert tail[|a|] == '/';
  }

  /** `https://github.com/octocat` is a GitHub profile link. */
  lemma GitHubExample()
    ensures LinkFieldOk("https://" + "github.com/" + "octocat", GitHub)
  {
    var empty: string := [];
    var user := "octocat";
    assert IsSegment(user, HandleChar);
    PartsMatched("https://", empty, user, empty, GitHub);
    assert "https://" + empty + "github.com/" + user + empty == "https://" + "github.com/" + user;
  }

  /** Each of the five fields accepts exactly the empty string and the strings of its rule's language. */
  lemma LinkFieldsAreLanguages(s: string)
    ensures LinkFieldOk(s, Facebook) <==> s == "" || InLanguage(s, Facebook)
    ensures LinkFieldOk(s, Telegram) <==> s == "" || InLanguage(s, Telegram)
    ensures LinkFieldOk(s, Reddit) <==> s == "" || InLanguage(s, Reddit)
    ensures LinkFieldOk(s, LinkedIn) <==> s == "" || InLanguage(s, LinkedIn)
    ensures LinkFieldOk(s, GitHub) <==> s == "" || InLanguage(s, GitHub)
  {
    RulesWellFormed();
    MatchesIffInLanguage(s, Facebook);
    MatchesIffInLanguage(s, Telegram);
    MatchesIffInLanguage(s, Reddit);
    MatchesIffInLanguage(s, LinkedIn);
    MatchesIffInLanguage(s, GitHub);
  }
}
