/**
 * The `WebHackingMethods` object: forty exploit-category keys, each paired with a description.
 * Only the keys matter to the application (they are stored on challenges, offered by the method
 * picker and checked by the create-challenge schema); the descriptions are display text.
 * Every key is a run of upper-case words joined by underscores, so the model keeps each key as
 * its list of words.
 */
module HackingMethods {
  import opened Results
  import opened Text

  /** One constructor per key of the object, in declaration order. */
  datatype Method =
    | Xss
    | SqlInjection
    | Csrf
    | Ssrf
    | DirectoryTraversal
    | AuthenticationBypass
    | SessionHijacking
    | SubdomainEnumeration
    | ApiSecurity
    | OpenRedirect
    | Clickjacking
    | FileUploadVulnerability
    | ContentSecurityPolicyBypass
    | BrokenAccessControl
    | InsecureDeserialization
    | BrokenAuthentication
    | SensitiveDataExposure
    | WeakSessionManagement
    | PathParameterAttacks
    | HttpRequestSmuggling
    | BusinessLogicBugs
    | HostHeaderInjection
    | HttpResponseSplitting
    | CachePoisoning
    | DomBasedXss
    | CorsMisconfiguration
    | Idor
    | HtmlInjection
    | XmlExternalEntity
    | HiddenParameterDiscovery
    | InputValidationBugs
    | CrossOriginScripting
    | TemplateInjection
    | MisconfiguredSecurityHeaders
    | RateLimitingBypass
    | PasswordResetPoisoning
    | WebsocketSecurity
    | WeakEncryption
    | DependencyVulnerabilities
    | JavascriptPrototypePollution

  /** A non-empty run of upper-case letters. */
  predicate IsWord(w: string) {
    |w| > 0 && forall i | 0 <= i < |w| :: IsUpper(w[i])
  }

  /** A non-empty list of words. */
  predicate AllWords(ws: seq<string>) {
    |ws| > 0 && forall i | 0 <= i < |ws| :: IsWord(ws[i])
  }

  /** The words from position `i` on, joined by underscores. */
  function JoinFrom(ws: seq<string>, i: nat): string
    requires i < |ws|
    decreases |ws| - i
  {
    if i == |ws| - 1 then ws[i] else ws[i] + "_" + JoinFrom(ws, i + 1)
  }

  /** The key spelled by a list of words. */
  function Join(ws: seq<string>): string
    requires |ws| > 0
  {
    JoinFrom(ws, 0)
  }

  /** Upper-case words joined by single underscores, with no underscore at either end. */
  predicate KeyShaped(s: string) {
    && |s| > 0 && s[0] != '_' && s[|s| - 1] != '_'
    && (forall i | 0 <= i < |s| :: IsUpper(s[i]) || s[i] == '_')
    && (forall i | 0 <= i < |s| - 1 :: s[i] == '_' ==> s[i + 1] != '_')
  }

  /** A word followed by an underscore and a key is a key. */
  lemma ShapedGlue(w: string, k: string)
    requires IsWord(w) && KeyShaped(k)
    ensures KeyShaped(w + "_" + k)
  {
    var t := w + "_" + k;
    forall i | 0 <= i < |t| ensures IsUpper(t[i]) || t[i] == '_' {
      if i < |w| {
        assert t[i] == w[i];
      } else if i > |w| {
        assert t[i] == k[i - |w| - 1];
      }
    }
    forall i | 0 <= i < |t| - 1 ensures t[i] == '_' ==> t[i + 1] != '_' {
      if i < |w| - 1 {
        assert t[i] == w[i];
      } else if i == |w| - 1 {
        assert t[i] == w[i];
      } else if i == |w| {
        assert t[i + 1] == k[0];
      } else {
        assert t[i] == k[i - |w| - 1] && t[i + 1] == k[i - |w|];
      }
    }
  }

  /** Joining words gives a well-shaped key. */
  lemma {:induction false} JoinShaped(ws: seq<string>, i: nat)
    requires AllWords(ws) && i < |ws|
    ensures KeyShaped(JoinFrom(ws, i))
    decreases |ws| - i
  {
    assert IsWord(ws[i]);
    if i < |ws| - 1 {
      JoinShaped(ws, i + 1);
      ShapedGlue(ws[i], JoinFrom(ws, i + 1));
    }
  }

  /** Length, first and last character, packed into one number: already enough to tell the forty keys apart. */
  function Fingerprint(s: string): int {
    if s == [] then 0 else |s| * 0x1_0000_0000 + s[0] as int * 0x1_0000 + s[|s| - 1] as int
  }

  /** The length of the key joined from the words at position `i` on. */
  function JoinedLength(ws: seq<string>, i: nat): int
    requires i < |ws|
    decreases |ws| - i
  {
    if i == |ws| - 1 then |ws[i]| else |ws[i]| + 1 + JoinedLength(ws, i + 1)
  }

  /** The fingerprint of the joined key, read off the words. */
  function WordsPrint(ws: seq<string>): int
    requires AllWords(ws)
  {
    var last := ws[|ws| - 1];
    assert IsWord(ws[0]) && IsWord(last);
    JoinedLength(ws, 0) * 0x1_0000_0000 + ws[0][0] as int * 0x1_0000 + last[|last| - 1] as int
  }

  /** Length, first and last character of a joined key. */
  lemma {:induction false} JoinFromEnds(ws: seq<string>, i: nat)
    requires AllWords(ws) && i < |ws|
    ensures |JoinFrom(ws, i)| == JoinedLength(ws, i) > 0
    ensures JoinFrom(ws, i)[0] == ws[i][0]
    ensures JoinFrom(ws, i)[|JoinFrom(ws, i)| - 1] == ws[|ws| - 1][|ws[|ws| - 1]| - 1]
    decreases |ws| - i
  {
    assert IsWord(ws[i]) && IsWord(ws[|ws| - 1]);
    if i < |ws| - 1 {
      JoinFromEnds(ws, i + 1);
      var t := JoinFrom(ws, i + 1);
      assert JoinFrom(ws, i) == ws[i] + "_" + t;
      assert JoinFrom(ws, i)[|JoinFrom(ws, i)| - 1] == t[|t| - 1];
    }
  }

  /** The fingerprint read off the words is the fingerprint of the key. */
  lemma WordsPrintJoin(ws: seq<string>)
    requires AllWords(ws)
    ensures Fingerprint(Join(ws)) == WordsPrint(ws)
  {
    JoinFromEnds(ws, 0);
  }

  /** The method whose key has the given fingerprint, found by binary search over the forty fingerprints. */
  function FromFingerprint(f: int): Option<Method> {
    if f < 90198638668 then
      if f < 64428900423 then
        if f < 51543998535 then
          if f < 17184653394 then
            if f < 17184260166 then
              if f == 12890669139 then Some(Xss) else None
            else
              if f == 17184260166 then Some(Csrf) else None
          else
            if f < 17185308742 then
              if f == 17184653394 then Some(Idor) else None
            else
              if f < 51543867481 then
                if f == 17185308742 then Some(Ssrf) else None
              else
                if f == 51543867481 then Some(ApiSecurity) else None
        else
          if f < 55839752276 then
            if f < 55839031379 then
              if f == 51543998535 then Some(Clickjacking) else None
            else
              if f == 55839031379 then Some(DomBasedXss) else None
          else
            if f < 55840014414 then
              if f == 55839752276 then Some(OpenRedirect) else None
            else
              if f < 60134260814 then
                if f == 55840014414 then Some(SqlInjection) else None
              else
                if f == 60134260814 then Some(HtmlInjection) else None
      else
        if f < 81608704083 then
          if f < 73019883591 then
            if f < 64430211150 then
              if f == 64428900423 then Some(CachePoisoning) else None
            else
              if f == 64430211150 then Some(WeakEncryption) else None
          else
            if f < 77314916430 then
              if f == 73019883591 then Some(SessionHijacking) else None
            else
              if f < 77315113049 then
                if f == 77314916430 then Some(TemplateInjection) else None
              else
                if f == 77315113049 then Some(WebsocketSecurity) else None
        else
          if f < 81610145881 then
            if f < 81608835148 then
              if f == 81608704083 then Some(BusinessLogicBugs) else None
            else
              if f == 81608835148 then Some(DirectoryTraversal) else None
          else
            if f < 85904719955 then
              if f == 81610145881 then Some(XmlExternalEntity) else None
            else
              if f < 90198573139 then
                if f == 85904719955 then Some(RateLimitingBypass) else None
              else
                if f == 90198573139 then Some(AuthenticationBypass) else None
    else
      if f < 98789687365 then
        if f < 90199752782 then
          if f < 90198704206 then
            if f < 90198638670 then
              if f == 90198638668 then Some(BrokenAccessControl) else None
            else
              if f == 90198638670 then Some(BrokenAuthentication) else None
          else
            if f < 90199031886 then
              if f == 90198704206 then Some(CorsMisconfiguration) else None
            else
              if f < 90199097427 then
                if f == 90199031886 then Some(HostHeaderInjection) else None
              else
                if f == 90199097427 then Some(InputValidationBugs) else None
        else
          if f < 94493999175 then
            if f < 94493671495 then
              if f == 90199752782 then Some(SubdomainEnumeration) else None
            else
              if f == 94493671495 then Some(CrossOriginScripting) else None
          else
            if f < 94494523475 then
              if f == 94493999175 then Some(HttpRequestSmuggling) else None
            else
              if f < 98788966471 then
                if f == 94494523475 then Some(PathParameterAttacks) else None
              else
                if f == 98788966471 then Some(HttpResponseSplitting) else None
      else
        if f < 111673606227 then
          if f < 103083999310 then
            if f < 98789949524 then
              if f == 98789687365 then Some(SensitiveDataExposure) else None
            else
              if f == 98789949524 then Some(WeakSessionManagement) else None
          else
            if f < 103084458055 then
              if f == 103083999310 then Some(InsecureDeserialization) else None
            else
              if f < 107378770009 then
                if f == 103084458055 then Some(PasswordResetPoisoning) else None
              else
                if f == 107378770009 then Some(FileUploadVulnerability) else None
        else
          if f < 128853409875 then
            if f < 111673868377 then
              if f == 111673606227 then Some(DependencyVulnerabilities) else None
            else
              if f == 111673868377 then Some(HiddenParameterDiscovery) else None
          else
            if f < 128853868622 then
              if f == 128853409875 then Some(ContentSecurityPolicyBypass) else None
            else
              if f < 128854065235 then
                if f == 128853868622 then Some(JavascriptPrototypePollution) else None
              else
                if f == 128854065235 then Some(MisconfiguredSecurityHeaders) else None
  }
}

/** The key of each method, the list of all keys, and reading a key back. */
module MethodKeys {
  import opened Results
  import opened Seqs
  import opened HackingMethods

  /** The underscore-separated words of a method's key. */
  function Words(m: Method): seq<string> {
    match m
    case Xss => ["XSS"]
    case SqlInjection => ["SQL", "INJECTION"]
    case Csrf => ["CSRF"]
    case Ssrf => ["SSRF"]
    case DirectoryTraversal => ["DIRECTORY", "TRAVERSAL"]
    case AuthenticationBypass => ["AUTHENTICATION", "BYPASS"]
    case SessionHijacking => ["SESSION", "HIJACKING"]
    case SubdomainEnumeration => ["SUBDOMAIN", "ENUMERATION"]
    case ApiSecurity => ["API", "SECURITY"]
    case OpenRedirect => ["OPEN", "REDIRECT"]
    case Clickjacking => ["CLICKJACKING"]
    case FileUploadVulnerability => ["FILE", "UPLOAD", "VULNERABILITY"]
    case ContentSecurityPolicyBypass => ["CONTENT", "SECURITY", "POLICY", "BYPASS"]
    case BrokenAccessControl => ["BROKEN", "ACCESS", "CONTROL"]
    case InsecureDeserialization => ["INSECURE", "DESERIALIZATION"]
    case BrokenAuthentication => ["BROKEN", "AUTHENTICATION"]
    case SensitiveDataExposure => ["SENSITIVE", "DATA", "EXPOSURE"]
    case WeakSessionManagement => ["WEAK", "SESSION", "MANAGEMENT"]
    case PathParameterAttacks => ["PATH", "PARAMETER", "ATTACKS"]
    case HttpRequestSmuggling => ["HTTP", "REQUEST", "SMUGGLING"]
    case BusinessLogicBugs => ["BUSINESS", "LOGIC", "BUGS"]
    case HostHeaderInjection => ["HOST", "HEADER", "INJECTION"]
    case HttpResponseSplitting => ["HTTP", "RESPONSE", "SPLITTING"]
    case CachePoisoning => ["CACHE", "POISONING"]
    case DomBasedXss => ["DOM", "BASED", "XSS"]
    case CorsMisconfiguration => ["CORS", "MISCONFIGURATION"]
    case Idor => ["IDOR"]
    case HtmlInjection => ["HTML", "INJECTION"]
    case XmlExternalEntity => ["XML", "EXTERNAL", "ENTITY"]
    case HiddenParameterDiscovery => ["HIDDEN", "PARAMETER", "DISCOVERY"]
    case InputValidationBugs => ["INPUT", "VALIDATION", "BUGS"]
    case CrossOriginScripting => ["CROSS", "ORIGIN", "SCRIPTING"]
    case TemplateInjection => ["TEMPLATE", "INJECTION"]
    case MisconfiguredSecurityHeaders => ["MISCONFIGURED", "SECURITY", "HEADERS"]
    case RateLimitingBypass => ["RATE", "LIMITING", "BYPASS"]
    case PasswordResetPoisoning => ["PASSWORD", "RESET", "POISONING"]
    case WebsocketSecurity => ["WEBSOCKET", "SECURITY"]
    case WeakEncryption => ["WEAK", "ENCRYPTION"]
    case DependencyVulnerabilities => ["DEPENDENCY", "VULNERABILITIES"]
    case JavascriptPrototypePollution => ["JAVASCRIPT", "PROTOTYPE", "POLLUTION"]
  }

  /** The words of a method's key are upper-case, and their fingerprint leads back to the method. */
  predicate WordsChecked(m: Method) {
    AllWords(Words(m)) && FromFingerprint(WordsPrint(Words(m))) == Some(m)
  }

  /* The key table is checked one method per lemma, so that each check stays small. */

  lemma WordsChecked0()
    ensures WordsChecked(Xss)
  {
  }

  lemma WordsChecked1()
    ensures WordsChecked(SqlInjection)
  {
  }

  lemma WordsChecked2()
    ensures WordsChecked(Csrf)
  {
  }

  lemma WordsChecked3()
    ensures WordsChecked(Ssrf)
  {
  }

  lemma WordsChecked4()
    ensures WordsChecked(DirectoryTraversal)
  {
  }

  lemma WordsChecked5()
    ensures WordsChecked(AuthenticationBypass)
  {
  }

  lemma WordsChecked6()
    ensures WordsChecked(SessionHijacking)
  {
  }

  lemma WordsChecked7()
    ensures WordsChecked(SubdomainEnumeration)
  {
  }

  lemma WordsChecked8()
    ensures WordsChecked(ApiSecurity)
  {
  }

  lemma WordsChecked9()
    ensures WordsChecked(OpenRedirect)
  {
  }

  lemma WordsChecked10()
    ensures WordsChecked(Clickjacking)
  {
  }

  lemma WordsChecked11()
    ensures WordsChecked(FileUploadVulnerability)
  {
  }

  lemma WordsChecked12()
    ensures WordsChecked(ContentSecurityPolicyBypass)
  {
  }

  lemma WordsChecked13()
    ensures WordsChecked(BrokenAccessControl)
  {
  }

  lemma WordsChecked14()
    ensures WordsChecked(InsecureDeserialization)
  {
  }

  lemma WordsChecked15()
    ensures WordsChecked(BrokenAuthentication)
  {
  }

  lemma WordsChecked16()
    ensures WordsChecked(SensitiveDataExposure)
  {
  }

  lemma WordsChecked17()
    ensures WordsChecked(WeakSessionManagement)
  {
  }

  lemma WordsChecked18()
    ensures WordsChecked(PathParameterAttacks)
  {
  }

  lemma WordsChecked19()
    ensures WordsChecked(HttpRequestSmuggling)
  {
  }

  lemma WordsChecked20()
    ensures WordsChecked(BusinessLogicBugs)
  {
  }

  lemma WordsChecked21()
    ensures WordsChecked(HostHeaderInjection)
  {
  }

  lemma WordsChecked22()
    ensures WordsChecked(HttpResponseSplitting)
  {
  }

  lemma WordsChecked23()
    ensures WordsChecked(CachePoisoning)
  {
  }

  lemma WordsChecked24()
    ensures WordsChecked(DomBasedXss)
  {
  }

  lemma WordsChecked25()
    ensures WordsChecked(CorsMisconfiguration)
  {
  }

  lemma WordsChecked26()
    ensures WordsChecked(Idor)
  {
  }

  lemma WordsChecked27()
    ensures WordsChecked(HtmlInjection)
  {
  }

  lemma WordsChecked28()
    ensures WordsChecked(XmlExternalEntity)
  {
  }

  lemma WordsChecked29()
    ensures WordsChecked(HiddenParameterDiscovery)
  {
  }

  lemma WordsChecked30()
    ensures WordsChecked(InputValidationBugs)
  {
  }

  lemma WordsChecked31()
    ensures WordsChecked(CrossOriginScripting)
  {
  }

  lemma WordsChecked32()
    ensures WordsChecked(TemplateInjection)
  {
  }

  lemma WordsChecked33()
    ensures WordsChecked(MisconfiguredSecurityHeaders)
  {
  }

  lemma WordsChecked34()
    ensures WordsChecked(RateLimitingBypass)
  {
  }

  lemma WordsChecked35()
    ensures WordsChecked(PasswordResetPoisoning)
  {
  }

  lemma WordsChecked36()
    ensures WordsChecked(WebsocketSecurity)
  {
  }

  lemma WordsChecked37()
    ensures WordsChecked(WeakEncryption)
  {
  }

  lemma WordsChecked38()
    ensures WordsChecked(DependencyVulnerabilities)
  {
  }

  lemma WordsChecked39()
    ensures WordsChecked(JavascriptPrototypePollution)
  {
  }

  /** Every method's words are checked. */
  lemma WordsCheckedAll(m: Method)
    ensures WordsChecked(m)
  {
    match m
    case Xss => WordsChecked0();
    case SqlInjection => WordsChecked1();
    case Csrf => WordsChecked2();
    case Ssrf => WordsChecked3();
    case DirectoryTraversal => WordsChecked4();
    case AuthenticationBypass => WordsChecked5();
    case SessionHijacking => WordsChecked6();
    case SubdomainEnumeration => WordsChecked7();
    case ApiSecurity => WordsChecked8();
    case OpenRedirect => WordsChecked9();
    case Clickjacking => WordsChecked10();
    case FileUploadVulnerability => WordsChecked11();
    case ContentSecurityPolicyBypass => WordsChecked12();
    case BrokenAccessControl => WordsChecked13();
    case InsecureDeserialization => WordsChecked14();
    case BrokenAuthentication => WordsChecked15();
    case SensitiveDataExposure => WordsChecked16();
    case WeakSessionManagement => WordsChecked17();
    case PathParameterAttacks => WordsChecked18();
    case HttpRequestSmuggling => WordsChecked19();
    case BusinessLogicBugs => WordsChecked20();
    case HostHeaderInjection => WordsChecked21();
    case HttpResponseSplitting => WordsChecked22();
    case CachePoisoning => WordsChecked23();
    case DomBasedXss => WordsChecked24();
    case CorsMisconfiguration => WordsChecked25();
    case Idor => WordsChecked26();
    case HtmlInjection => WordsChecked27();
    case XmlExternalEntity => WordsChecked28();
    case HiddenParameterDiscovery => WordsChecked29();
    case InputValidationBugs => WordsChecked30();
    case CrossOriginScripting => WordsChecked31();
    case TemplateInjection => WordsChecked32();
    case MisconfiguredSecurityHeaders => WordsChecked33();
    case RateLimitingBypass => WordsChecked34();
    case PasswordResetPoisoning => WordsChecked35();
    case WebsocketSecurity => WordsChecked36();
    case WeakEncryption => WordsChecked37();
    case DependencyVulnerabilities => WordsChecked38();
    case JavascriptPrototypePollution => WordsChecked39();
  }

  /** The object key of a method, as it is written in `WebHackingMethods` and stored in the database. */
  function Key(m: Method): (k: string)
    ensures FromFingerprint(Fingerprint(k)) == Some(m)
  {
    WordsCheckedAll(m);
    WordsPrintJoin(Words(m));
    Join(Words(m))
  }

  /** Every key is upper-case words joined by single underscores, with no underscore at either end. */
  lemma KeyShapedAll(m: Method)
    ensures KeyShaped(Key(m))
  {
    WordsCheckedAll(m);
    JoinShaped(Words(m), 0);
  }

  /** The position of a method among the object's keys. */
  function Index(m: Method): (i: nat)
    ensures i < 40
  {
    match m
    case Xss => 0
    case SqlInjection => 1
    case Csrf => 2
    case Ssrf => 3
    case DirectoryTraversal => 4
    case AuthenticationBypass => 5
    case SessionHijacking => 6
    case SubdomainEnumeration => 7
    case ApiSecurity => 8
    case OpenRedirect => 9
    case Clickjacking => 10
    case FileUploadVulnerability => 11
    case ContentSecurityPolicyBypass => 12
    case BrokenAccessControl => 13
    case InsecureDeserialization => 14
    case BrokenAuthentication => 15
    case SensitiveDataExposure => 16
    case WeakSessionManagement => 17
    case PathParameterAttacks => 18
    case HttpRequestSmuggling => 19
    case BusinessLogicBugs => 20
    case HostHeaderInjection => 21
    case HttpResponseSplitting => 22
    case CachePoisoning => 23
    case DomBasedXss => 24
    case CorsMisconfiguration => 25
    case Idor => 26
    case HtmlInjection => 27
    case XmlExternalEntity => 28
    case HiddenParameterDiscovery => 29
    case InputValidationBugs => 30
    case CrossOriginScripting => 31
    case TemplateInjection => 32
    case MisconfiguredSecurityHeaders => 33
    case RateLimitingBypass => 34
    case PasswordResetPoisoning => 35
    case WebsocketSecurity => 36
    case WeakEncryption => 37
    case DependencyVulnerabilities => 38
    case JavascriptPrototypePollution => 39
  }

  /** The method declared at position `i`, found by binary search. */
  function MethodAt(i: nat): Method
    requires i < 40
  {
    if i < 20 then
      if i < 10 then
        if i < 5 then
          if i < 2 then
            if i < 1 then
              Xss
            else
              SqlInjection
          else
            if i < 3 then
              Csrf
            else
              if i < 4 then
                Ssrf
              else
                DirectoryTraversal
        else
          if i < 7 then
            if i < 6 then
              AuthenticationBypass
            else
              SessionHijacking
          else
            if i < 8 then
              SubdomainEnumeration
            else
              if i < 9 then
                ApiSecurity
              else
                OpenRedirect
      else
        if i < 15 then
          if i < 12 then
            if i < 11 then
              Clickjacking
            else
              FileUploadVulnerability
          else
            if i < 13 then
              ContentSecurityPolicyBypass
            else
              if i < 14 then
                BrokenAccessControl
              else
                InsecureDeserialization
        else
          if i < 17 then
            if i < 16 then
              BrokenAuthentication
            else
              SensitiveDataExposure
          else
            if i < 18 then
              WeakSessionManagement
            else
              if i < 19 then
                PathParameterAttacks
              else
                HttpRequestSmuggling
    else
      if i < 30 then
        if i < 25 then
          if i < 22 then
            if i < 21 then
              BusinessLogicBugs
            else
              HostHeaderInjection
          else
            if i < 23 then
              HttpResponseSplitting
            else
              if i < 24 then
                CachePoisoning
              else
                DomBasedXss
        else
          if i < 27 then
            if i < 26 then
              CorsMisconfiguration
            else
              Idor
          else
            if i < 28 then
              HtmlInjection
            else
              if i < 29 then
                XmlExternalEntity
              else
                HiddenParameterDiscovery
      else
        if i < 35 then
          if i < 32 then
            if i < 31 then
              InputValidationBugs
            else
              CrossOriginScripting
          else
            if i < 33 then
              TemplateInjection
            else
              if i < 34 then
                MisconfiguredSecurityHeaders
              else
                RateLimitingBypass
        else
          if i < 37 then
            if i < 36 then
              PasswordResetPoisoning
            else
              WebsocketSecurity
          else
            if i < 38 then
              WeakEncryption
            else
              if i < 39 then
                DependencyVulnerabilities
              else
                JavascriptPrototypePollution
  }

  /** The methods declared from position `i` on. */
  function MethodsFrom(i: nat): (ms: seq<Method>)
    requires i <= 40
    ensures |ms| == 40 - i
    ensures forall j | 0 <= j < |ms| :: ms[j] == MethodAt(i + j)
    decreases 40 - i
  {
    if i == 40 then [] else [MethodAt(i)] + MethodsFrom(i + 1)
  }

  /** The keys of a list of methods, in the same order. */
  function KeysOf(ms: seq<Method>): (ks: seq<string>)
    ensures |ks| == |ms|
    ensures forall j | 0 <= j < |ms| :: ks[j] == Key(ms[j])
  {
    if ms == [] then [] else [Key(ms[0])] + KeysOf(ms[1..])
  }

  /** The methods in declaration order: the order of `Object.keys(WebHackingMethods)`. */
  function AllMethods(): (ms: seq<Method>)
    ensures |ms| == 40
    ensures forall j | 0 <= j < 40 :: ms[j] == MethodAt(j)
  {
    MethodsFrom(0)
  }

  /** `Object.keys(WebHackingMethods)` */
  function AllKeys(): seq<string> {
    KeysOf(AllMethods())
  }

  /** Reads a key back into a method; any other string is not a method (the `z.enum` of the object's keys). */
  function ParseKey(s: string): (r: Option<Method>)
    ensures r.Some? ==> Key(r.value) == s
  {
    match FromFingerprint(Fingerprint(s))
    case Some(m) => if Key(m) == s then Some(m) else None
    case None => None
  }

  /** `s` is a key of the object. */
  predicate IsKey(s: string) {
    ParseKey(s).Some?
  }

  /** Different methods have different keys. */
  lemma KeyInjective(a: Method, b: Method)
    ensures Key(a) == Key(b) ==> a == b
  {
  }

  /** Every key reads back as its own method, and nothing else reads back as that method. */
  lemma ParseKeyRoundTrip(m: Method, s: string)
    ensures ParseKey(Key(m)) == Some(m)
    ensures ParseKey(s) == Some(m) <==> s == Key(m)
  {
  }

  /** `MethodAt` undoes `Index`. */
  lemma MethodAtIndex(m: Method)
    ensures MethodAt(Index(m)) == m
  {
    match m
    case Xss =>
    case SqlInjection =>
    case Csrf =>
    case Ssrf =>
    case DirectoryTraversal =>
    case AuthenticationBypass =>
    case SessionHijacking =>
    case SubdomainEnumeration =>
    case ApiSecurity =>
    case OpenRedirect =>
    case Clickjacking =>
    case FileUploadVulnerability =>
    case ContentSecurityPolicyBypass =>
    case BrokenAccessControl =>
    case InsecureDeserialization =>
    case BrokenAuthentication =>
    case SensitiveDataExposure =>
    case WeakSessionManagement =>
    case PathParameterAttacks =>
    case HttpRequestSmuggling =>
    case BusinessLogicBugs =>
    case HostHeaderInjection =>
    case HttpResponseSplitting =>
    case CachePoisoning =>
    case DomBasedXss =>
    case CorsMisconfiguration =>
    case Idor =>
    case HtmlInjection =>
    case XmlExternalEntity =>
    case HiddenParameterDiscovery =>
    case InputValidationBugs =>
    case CrossOriginScripting =>
    case TemplateInjection =>
    case MisconfiguredSecurityHeaders =>
    case RateLimitingBypass =>
    case PasswordResetPoisoning =>
    case WebsocketSecurity =>
    case WeakEncryption =>
    case DependencyVulnerabilities =>
    case JavascriptPrototypePollution =>
  }

  /** `Index` undoes `MethodAt`: the two are inverse bijections between the methods and 0..39. */
  lemma IndexMethodAt(i: nat)
    requires i < 40
    ensures Index(MethodAt(i)) == i
  {
    if i == 0 {
    } else if i == 1 {
    } else if i == 2 {
    } else if i == 3 {
    } else if i == 4 {
    } else if i == 5 {
    } else if i == 6 {
    } else if i == 7 {
    } else if i == 8 {
    } else if i == 9 {
    } else if i == 10 {
    } else if i == 11 {
    } else if i == 12 {
    } else if i == 13 {
    } else if i == 14 {
    } else if i == 15 {
    } else if i == 16 {
    } else if i == 17 {
    } else if i == 18 {
    } else if i == 19 {
    } else if i == 20 {
    } else if i == 21 {
    } else if i == 22 {
    } else if i == 23 {
    } else if i == 24 {
    } else if i == 25 {
    } else if i == 26 {
    } else if i == 27 {
    } else if i == 28 {
    } else if i == 29 {
    } else if i == 30 {
    } else if i == 31 {
    } else if i == 32 {
    } else if i == 33 {
    } else if i == 34 {
    } else if i == 35 {
    } else if i == 36 {
    } else if i == 37 {
    } else if i == 38 {
    } else {
    }
  }

  /** Distinct methods have distinct keys, and a listed method has its key listed. */
  lemma KeysOfDistinct(ms: seq<Method>)
    ensures Distinct(ms) ==> Distinct(KeysOf(ms))
    ensures forall m | m in ms :: Key(m) in KeysOf(ms)
  {
    var ks := KeysOf(ms);
    forall m | m in ms ensures Key(m) in ks {
      var j :| 0 <= j < |ms| && ms[j] == m;
      assert ks[j] == Key(m);
    }
    if Distinct(ms) {
      forall i, j | 0 <= i < j < |ks| ensures ks[i] != ks[j] {
        KeyInjective(ms[i], ms[j]);
      }
    }
  }

  /** Every method is listed, exactly once. */
  lemma AllMethodsDistinct()
    ensures forall m :: m in AllMethods()
    ensures Distinct(AllMethods())
  {
    var ms := AllMethods();
    forall m ensures m in ms {
      MethodAtIndex(m);
      assert ms[Index(m)] == m;
    }
    forall i, j | 0 <= i < j < 40 ensures ms[i] != ms[j] {
      IndexMethodAt(i);
      IndexMethodAt(j);
    }
  }

  /** The object has exactly forty keys, every method's key among them, and no key twice. */
  lemma AllKeysDistinct()
    ensures |AllKeys()| == 40
    ensures forall m :: Key(m) in AllKeys()
    ensures Distinct(AllKeys())
  {
    AllMethodsDistinct();
    KeysOfDistinct(AllMethods());
  }

  /** A string accepted as a method is listed. */
  lemma IsKeyListed(s: string)
    requires IsKey(s)
    ensures s in AllKeys()
  {
    AllKeysDistinct();
    assert Key(ParseKey(s).value) == s;
  }

  /** A listed string is accepted as a method. */
  lemma ListedIsKey(s: string)
    requires s in AllKeys()
    ensures IsKey(s)
  {
    var i :| 0 <= i < |AllKeys()| && AllKeys()[i] == s;
    ParseKeyRoundTrip(AllMethods()[i], s);
  }

  /** The method type is exactly the key set: a string is accepted as a method iff it is one of the keys. */
  lemma IsKeyIffListed(s: string)
    ensures IsKey(s) <==> s in AllKeys()
  {
    if IsKey(s) {
      IsKeyListed(s);
    }
    if s in AllKeys() {
      ListedIsKey(s);
    }
  }
}
