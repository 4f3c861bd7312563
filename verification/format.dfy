/**
 * The display formatters: `formatHackingMethod` (present twice, once typed over method keys and
 * once over any string, with the same body), `formatChallengeStatusToString` and
 * `getFileExtension`.
 */
module Format {
  import opened Results
  import opened Text
  import opened HackingMethods
  import opened MethodKeys
  import opened Records

  /** A word character at index `p` of `t`; positions outside `t` are not word characters. */
  predicate WordAt(t: string, p: int) {
    0 <= p < |t| && IsWordChar(t[p])
  }

  /** `\b` holds at position `p`: exactly one of the characters either side is a word character. */
  predicate Boundary(t: string, p: int) {
    WordAt(t, p - 1) != WordAt(t, p)
  }

  /** `t[i]` is matched by `/\b\w/`: a word character with no word character before it. */
  predicate WordStart(t: string, i: int) {
    WordAt(t, i) && !WordAt(t, i - 1)
  }

  /**
   * `t.replace(/\b\w/g, char => char.toUpperCase())`: only the case changes, a word's first
   * character is never lower-case, and only a lower-case letter at the start of a word changes.
   */
  function CapitalizeWords(t: string): (r: string)
    ensures |r| == |t|
    ensures forall i | 0 <= i < |t| :: LowerChar(r[i]) == LowerChar(t[i])
    ensures forall i | 0 <= i < |t| && WordStart(t, i) :: !IsLower(r[i])
    ensures forall i | 0 <= i < |t| && r[i] != t[i] :: WordStart(t, i) && IsLower(t[i])
  {
    seq(|t|, i requires 0 <= i < |t| => if WordStart(t, i) then UpperChar(t[i]) else t[i])
  }

  /**
   * Underscores to spaces, then lower case, then a capital at the start of every word. The result
   * keeps the length, has no underscore, and is the folded input up to the case of each character.
   */
  function TitleCase(s: string): (r: string)
    ensures |r| == |s|
    ensures forall i | 0 <= i < |s| :: r[i] != '_' && LowerChar(r[i]) == Fold(s[i])
  {
    var l := ToLower(ReplaceChar(s, '_', ' '));
    assert forall i | 0 <= i < |s| :: l[i] == Fold(s[i]) && l[i] != '_' && LowerChar(l[i]) == l[i];
    CapitalizeWords(l)
  }

  /** The acronyms the formatter tries to restore, in the order of its alternation. */
  const Acronyms: seq<string> := ["XSS", "SQL Injection", "CSRF", "SSRF"]

  /** `acronyms.some(acronym => t.includes(acronym.toLowerCase()))` */
  predicate MentionsAcronym(t: string) {
    exists k | 0 <= k < |Acronyms| :: Contains(t, ToLower(Acronyms[k]))
  }

  /** Alternative `k` of `\b(XSS|SQL Injection|CSRF|SSRF)\b` matches at index `i`. */
  predicate AcronymAt(t: string, i: int, k: int)
    requires 0 <= k < |Acronyms|
  {
    OccursAt(t, Acronyms[k], i) && Boundary(t, i) && Boundary(t, i + |Acronyms[k]|)
  }

  /** The first alternative from `k` on that matches at `i`, as the regular expression tries them. */
  function FirstAcronymAt(t: string, i: int, k: nat): (r: Option<nat>)
    requires k <= |Acronyms|
    ensures r.Some? ==> k <= r.value < |Acronyms| && AcronymAt(t, i, r.value)
    ensures r.None? <==> forall j | k <= j < |Acronyms| :: !AcronymAt(t, i, j)
    decreases |Acronyms| - k
  {
    if k == |Acronyms| then None
    else if AcronymAt(t, i, k) then Some(k)
    else FirstAcronymAt(t, i, k + 1)
  }

  /**
   * `t.replace(/\b(XSS|SQL Injection|CSRF|SSRF)\b/g, match => match.toUpperCase())` on the text
   * from index `i` on: a match is upper-cased and scanning resumes after it; elsewhere the scan
   * moves one character at a time.
   */
  function ReplaceAcronymsFrom(t: string, i: nat): string
    requires i <= |t|
    decreases |t| - i
  {
    if i == |t| then ""
    else
      match FirstAcronymAt(t, i, 0)
      case Some(k) => ToUpper(Acronyms[k]) + ReplaceAcronymsFrom(t, i + |Acronyms[k]|)
      case None => [t[i]] + ReplaceAcronymsFrom(t, i + 1)
  }

  /** No two adjacent upper-case letters. */
  predicate NoAdjacentUpper(t: string) {
    forall i | 0 <= i < |t| - 1 :: !(IsUpper(t[i]) && IsUpper(t[i + 1]))
  }

  /** Title-cased text has no two adjacent capitals: a capital starts a word, and its successor continues it. */
  lemma TitleCaseNoAdjacentUpper(s: string)
    ensures NoAdjacentUpper(TitleCase(s))
  {
    var r := TitleCase(s);
    TitleCaseAt(s);
    forall i | 0 <= i < |r| - 1 ensures !(IsUpper(r[i]) && IsUpper(r[i + 1])) {
      assert IsUpper(r[i]) ==> RunStart(s, i) && !RunStart(s, i + 1);
    }
  }

  /** Every acronym begins with two capitals, so none matches in text without adjacent capitals. */
  lemma NoAcronymAt(t: string, i: int)
    requires NoAdjacentUpper(t)
    ensures FirstAcronymAt(t, i, 0).None?
  {
    forall k | 0 <= k < |Acronyms| ensures !AcronymAt(t, i, k) {
      var a := Acronyms[k];
      assert IsUpper(a[0]) && IsUpper(a[1]);
    }
  }

  /** Where no acronym matches, the replacement leaves the text as it is. */
  lemma {:induction false} ReplaceAcronymsInert(t: string, i: nat)
    requires i <= |t| && NoAdjacentUpper(t)
    ensures ReplaceAcronymsFrom(t, i) == t[i..]
    decreases |t| - i
  {
    if i < |t| {
      NoAcronymAt(t, i);
      ReplaceAcronymsInert(t, i + 1);
      assert t[i..] == [t[i]] + t[i + 1..];
    }
  }

  /**
   * `formatHackingMethod`, as written in both places it is defined. The acronym branch never
   * changes the result: the output is the plain title-cased text.
   */
  function FormatText(s: string): (r: string)
    ensures r == TitleCase(s)
  {
    var t := TitleCase(s);
    TitleCaseNoAdjacentUpper(s);
    ReplaceAcronymsInert(t, 0);
    if MentionsAcronym(t) then ReplaceAcronymsFrom(t, 0) else t
  }

  /**
   * `formatHackingMethod` on a method key: the text reads back as the key, and it is letters and
   * single spaces only.
   */
  function FormatHackingMethod(m: Method): (r: string)
    ensures UnformatKey(r) == Key(m)
    ensures SpacedWords(r)
  {
    KeyShapedAll(m);
    UnformatFormatText(Key(m));
    FormatTextSpaced(Key(m));
    FormatText(Key(m))
  }

  /**
   * `formatChallengeStatusToString`: title case only, with no acronym step. The text keeps the
   * key's length and has no underscore.
   */
  function FormatChallengeStatusToString(st: ChallengeStatus): (r: string)
    ensures |r| == |StatusKey(st)|
    ensures '_' !in r
  {
    TitleCase(StatusKey(st))
  }

  /** A character after `replaceAll("_", " ")` and `toLowerCase()`. */
  function Fold(c: char): char {
    LowerChar(if c == '_' then ' ' else c)
  }

  /** `s[i]` starts a run of `[A-Za-z0-9]`. */
  predicate RunStart(s: string, i: int)
    requires 0 <= i < |s|
  {
    IsAlnum(s[i]) && (i == 0 || !IsAlnum(s[i - 1]))
  }

  /**
   * Title case, character by character: every character is folded, and the one starting a run of
   * `[A-Za-z0-9]` is then upper-cased. Underscores became spaces, so the word characters left are
   * exactly the letters and digits.
   */
  lemma TitleCaseAt(s: string)
    ensures |TitleCase(s)| == |s|
    ensures forall i | 0 <= i < |s| ::
      TitleCase(s)[i] == if RunStart(s, i) then UpperChar(Fold(s[i])) else Fold(s[i])
  {
    var l := ToLower(ReplaceChar(s, '_', ' '));
    var r := CapitalizeWords(l);
    forall i | 0 <= i < |s|
      ensures r[i] == if RunStart(s, i) then UpperChar(Fold(s[i])) else Fold(s[i])
    {
      assert l[i] == Fold(s[i]);
      assert WordAt(l, i) <==> IsAlnum(s[i]);
      assert i > 0 ==> l[i - 1] == Fold(s[i - 1]) && (WordAt(l, i - 1) <==> IsAlnum(s[i - 1]));
    }
  }

  /**
   * The title-cased text keeps the length, has no underscore, agrees with the underscore-replaced
   * input up to case, and within each `[A-Za-z0-9]` run the first character is not lower-case and
   * the rest are not upper-case.
   */
  lemma TitleCaseShape(s: string)
    ensures |TitleCase(s)| == |s|
    ensures forall i | 0 <= i < |s| :: TitleCase(s)[i] != '_'
    ensures forall i | 0 <= i < |s| ::
      LowerChar(TitleCase(s)[i]) == LowerChar(if s[i] == '_' then ' ' else s[i])
    ensures forall i | 0 <= i < |s| :: IsAlnum(TitleCase(s)[i]) <==> IsAlnum(s[i])
    ensures forall i | 0 <= i < |s| && IsAlnum(s[i]) ::
      if RunStart(s, i) then !IsLower(TitleCase(s)[i]) else !IsUpper(TitleCase(s)[i])
  {
    TitleCaseAt(s);
  }

  /** `FormatText` has the shape of title-cased text. */
  lemma FormatTextShape(s: string)
    ensures |FormatText(s)| == |s|
    ensures forall i | 0 <= i < |s| :: FormatText(s)[i] != '_'
    ensures forall i | 0 <= i < |s| ::
      LowerChar(FormatText(s)[i]) == LowerChar(if s[i] == '_' then ' ' else s[i])
    ensures forall i | 0 <= i < |s| && IsAlnum(s[i]) ::
      if RunStart(s, i) then !IsLower(FormatText(s)[i]) else !IsUpper(FormatText(s)[i])
  {
    TitleCaseShape(s);
  }

  /** Title-casing is idempotent: it only reads the case-folded text and the word positions. */
  lemma TitleCaseIdempotent(s: string)
    ensures TitleCase(TitleCase(s)) == TitleCase(s)
  {
    var t := TitleCase(s);
    TitleCaseAt(s);
    TitleCaseAt(t);
    forall i | 0 <= i < |t| ensures TitleCase(t)[i] == t[i] {
      assert IsAlnum(t[i]) <==> IsAlnum(s[i]);
      assert i > 0 ==> (IsAlnum(t[i - 1]) <==> IsAlnum(s[i - 1]));
      assert Fold(t[i]) == Fold(s[i]);
    }
  }

  /** Formatting an already formatted string returns it unchanged. */
  lemma FormatTextIdempotent(s: string)
    ensures FormatText(FormatText(s)) == FormatText(s)
  {
    TitleCaseIdempotent(s);
  }

  /** Reads a formatted key back: spaces to underscores and upper case. */
  function UnformatKey(t: string): string {
    ToUpper(ReplaceChar(t, ' ', '_'))
  }

  /** In a formatted key, each underscore became a space and each letter kept or lost its capital. */
  lemma FormatShapedChars(k: string)
    requires KeyShaped(k)
    ensures |FormatText(k)| == |k|
    ensures forall i | 0 <= i < |k| ::
      if k[i] == '_' then FormatText(k)[i] == ' ' else FormatText(k)[i] == k[i] || FormatText(k)[i] == LowerChar(k[i])
  {
    TitleCaseAt(k);
    var r := FormatText(k);
    forall i | 0 <= i < |k|
      ensures if k[i] == '_' then r[i] == ' ' else r[i] == k[i] || r[i] == LowerChar(k[i])
    {
      KeyCharFolded(k[i], RunStart(k, i));
    }
  }

  /** One character of a key, title-cased: `_` becomes a space, a capital stays or is lowered. */
  lemma KeyCharFolded(c: char, start: bool)
    requires IsUpper(c) || c == '_'
    requires start ==> IsAlnum(c)
    ensures var x := if start then UpperChar(Fold(c)) else Fold(c);
      if c == '_' then x == ' ' else x == c || x == LowerChar(c)
  {
  }

  /** A well-shaped key, formatted and read back, is itself. */
  lemma UnformatFormatText(k: string)
    requires KeyShaped(k)
    ensures UnformatKey(FormatText(k)) == k
  {
    var r := FormatText(k);
    FormatShapedChars(k);
    forall i | 0 <= i < |k| ensures UnformatKey(r)[i] == k[i] {
      assert UnformatKey(r)[i] == UpperChar(if r[i] == ' ' then '_' else r[i]);
      if k[i] != '_' {
        assert IsUpper(k[i]);
      }
    }
  }

  /** Different methods are displayed differently. */
  lemma FormatHackingMethodInjective(a: Method, b: Method)
    ensures FormatHackingMethod(a) == FormatHackingMethod(b) ==> a == b
  {
    KeyInjective(a, b);
  }

  /** Letters and single spaces, with no space at either end. */
  predicate SpacedWords(r: string) {
    && |r| > 0 && r[0] != ' ' && r[|r| - 1] != ' '
    && (forall i | 0 <= i < |r| :: IsLetter(r[i]) || r[i] == ' ')
    && (forall i | 0 <= i < |r| - 1 :: r[i] == ' ' ==> r[i + 1] != ' ')
  }

  /** A well-shaped key formats to letters and single spaces. */
  lemma FormatTextSpaced(k: string)
    requires KeyShaped(k)
    ensures SpacedWords(FormatText(k))
  {
    var r := FormatText(k);
    FormatShapedChars(k);
    forall i | 0 <= i < |r| ensures (IsLetter(r[i]) || r[i] == ' ') && (r[i] == ' ' <==> k[i] == '_') {
      if k[i] != '_' {
        assert IsUpper(k[i]);
      }
    }
  }

  lemma TitleCaseSqlInjection()
    ensures TitleCase("SQL_INJECTION") == "Sql Injection"
  {
    TitleCaseAt("SQL_INJECTION");
  }

  /** The example in the function's own documentation. */
  lemma FormatSqlInjection()
    ensures FormatHackingMethod(SqlInjection) == "Sql Injection"
  {
    assert Key(SqlInjection) == "SQL_INJECTION";
    TitleCaseSqlInjection();
  }

  lemma TitleCaseDomBasedXss()
    ensures TitleCase("DOM_BASED_XSS") == "Dom Based Xss"
  {
    TitleCaseAt("DOM_BASED_XSS");
  }

  lemma KeyDomBasedXss()
    ensures Key(DomBasedXss) == "DOM_BASED_XSS"
  {
    assert Words(DomBasedXss) == ["DOM", "BASED", "XSS"];
  }

  lemma FormatDomBasedXss()
    ensures FormatHackingMethod(DomBasedXss) == "Dom Based Xss"
  {
    KeyDomBasedXss();
    TitleCaseDomBasedXss();
  }

  /** The example in the function's own documentation, and the other status. */
  lemma FormatStatuses()
    ensures FormatChallengeStatusToString(OnGoing) == "On Going"
    ensures FormatChallengeStatusToString(Done) == "Done"
  {
  }

  /** `getFileExtension`: the suffix from the last `.` on, or `""` when there is no `.`. */
  function GetFileExtension(fileName: string): (ext: string)
    ensures ext == "" <==> '.' !in fileName
    ensures ext != "" ==> ext[0] == '.' && '.' !in ext[1..]
    ensures |ext| <= |fileName| && fileName == fileName[..|fileName| - |ext|] + ext
  {
    var i := LastIndexOf(fileName, '.');
    if i != -1 then
      assert fileName[i..][1..] == fileName[i + 1..];
      fileName[i..]
    else ""
  }

  /** Any split of a name into a prefix and a suffix with exactly one `.`, at its start, is the extension. */
  lemma ExtensionUnique(fileName: string, prefix: string, ext: string)
    requires fileName == prefix + ext
    requires ext != [] && ext[0] == '.' && '.' !in ext[1..]
    ensures GetFileExtension(fileName) == ext
  {
    var e := GetFileExtension(fileName);
    var p, q := |prefix|, |fileName| - |e|;
    assert fileName[p] == '.' && fileName[p + 1..] == ext[1..];
    assert e != "" && fileName[q..] == e;
    assert fileName[q] == '.' && fileName[q + 1..] == e[1..];
  }

  /** The example in the function's own documentation. */
  lemma ImageJpg()
    ensures GetFileExtension("image.jpg") == ".jpg"
  {
    assert "image.jpg" == "image" + ".jpg";
    ExtensionUnique("image.jpg", "image", ".jpg");
  }
}
