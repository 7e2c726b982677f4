/** Capability sets as the builder sees them: the Windows-quoted command-line
    serialisation, the choice between it and the JSON serialisation, and the
    score the builder reports for a requested capability set. */
module Capabilities {
  import opened Wrappers
  import opened JavaStrings

  /** A capability value as `Capabilities.asMap()` yields it: null, a `String`,
      or any other object, known here only by its `String.valueOf` text. */
  datatype CapValue = Null | Str(s: string) | Other(text: string)

  /** The entries of `Capabilities.asMap()`, in iteration order. */
  type Caps = seq<(string, CapValue)>

  /** A map has one entry per key. */
  predicate UniqueKeys(cs: Caps) {
    forall i, j :: 0 <= i < j < |cs| ==> cs[i].0 != cs[j].0
  }

  /** Capability names whose string values are file-system paths. */
  const ChromedriverExecutableOption: string := "chromedriverExecutable"
  const KeystorePathOption: string := "keystorePath"
  const AppOption: string := "app"
  const PathCapabilities: seq<string> := [ChromedriverExecutableOption, KeystorePathOption, AppOption]

  const PlatformNameKey: string := "platformName"
  const BrowserNameKey: string := "browserName"

  /** Browser names the score recognises. */
  const ChromeBrowser: string := "chrome"
  const SafariBrowser: string := "safari"
  const SafariCapitalised: string := "Safari"
  const AndroidBrowser: string := "Android"

  /** The two characters backslash and double quote, which survive the
      Windows process-argument parser as a literal double quote. */
  const EscapedQuote: string := "\\\""

  /** `Capabilities.getCapability`: the value stored under `key`, or null when
      there is none. */
  function GetCapability(cs: Caps, key: string): (v: CapValue)
    ensures v != Null ==> (key, v) in cs
    ensures (forall i :: 0 <= i < |cs| ==> cs[i].0 != key) ==> v == Null
  {
    if cs == [] then Null
    else if cs[0].0 == key then cs[0].1
    else GetCapability(cs[1..], key)
  }

  /** In a capability map every stored entry is what `getCapability` returns
      for its key. */
  lemma {:induction false} GetCapabilityFinds(cs: Caps, i: nat)
    requires UniqueKeys(cs) && i < |cs|
    ensures GetCapability(cs, cs[i].0) == cs[i].1
  {
    if i > 0 {
      assert UniqueKeys(cs[1..]) by {
        forall a, b | 0 <= a < b < |cs[1..]|
          ensures cs[1..][a].0 != cs[1..][b].0
        {
          assert cs[1..][a] == cs[a + 1] && cs[1..][b] == cs[b + 1];
        }
      }
      GetCapabilityFinds(cs[1..], i - 1);
      assert cs[1..][i - 1] == cs[i];
    }
  }

  // ---------------------------------------------------------------------------
  // Windows-quoted serialisation
  // ---------------------------------------------------------------------------

  /** The value half of one quoted entry: a string is wrapped in escaped
      quotes, with backslashes turned into forward slashes for path
      capabilities; any other value is written as its text, unquoted. */
  function QuotedValue(key: string, v: CapValue): string
    requires v != Null
  {
    match v
    case Str(s) =>
      EscapedQuote + (if key in PathCapabilities then ReplaceChar(s, '\\', '/') else s) + EscapedQuote
    case Other(t) => t
  }

  /** One entry `\"key\": value` of the quoted serialisation. */
  function QuotedEntry(e: (string, CapValue)): (r: string)
    requires e.1 != Null
    ensures r != []
  {
    EscapedQuote + e.0 + EscapedQuote + ": " + QuotedValue(e.0, e.1)
  }

  /** The entries whose value is not null, in their original order. */
  function NonNull(cs: Caps): (r: Caps)
    ensures |r| <= |cs|
    ensures forall j :: 0 <= j < |r| ==> r[j].1 != Null
  {
    if cs == [] then []
    else
      var last := cs[|cs| - 1];
      NonNull(cs[..|cs| - 1]) + (if last.1 == Null then [] else [last])
  }

  /** Filtering a list with one more entry keeps that entry exactly when it is
      not null. */
  lemma NonNullSnoc(cs: Caps, e: (string, CapValue))
    ensures NonNull(cs + [e]) == NonNull(cs) + (if e.1 == Null then [] else [e])
  {
    assert (cs + [e])[..|cs|] == cs;
  }

  /** The filter keeps exactly the non-null entries. */
  lemma {:induction false} NonNullMembers(cs: Caps, e: (string, CapValue))
    ensures e in NonNull(cs) <==> e in cs && e.1 != Null
  {
    if cs != [] {
      var init := cs[..|cs| - 1];
      var last := cs[|cs| - 1];
      NonNullMembers(init, e);
      assert cs == init + [last];
      NonNullSnoc(init, last);
    }
  }

  /** Filtering out nulls twice is filtering them out once. */
  lemma {:induction false} NonNullIdempotent(cs: Caps)
    ensures NonNull(NonNull(cs)) == NonNull(cs)
  {
    if cs != [] {
      var init := cs[..|cs| - 1];
      var last := cs[|cs| - 1];
      assert cs == init + [last];
      NonNullIdempotent(init);
      NonNullSnoc(init, last);
      if last.1 != Null {
        var f := NonNull(init);
        assert NonNull(cs) == f + [last];
        NonNullSnoc(f, last);
        assert NonNull(f + [last]) == NonNull(f) + [last];
      } else {
        assert NonNull(cs) == NonNull(init) + [];
        assert NonNull(init) + [] == NonNull(init);
      }
    }
  }

  /** The entry strings the quoted serialisation joins, one per non-null
      capability. */
  function QuotedEntries(cs: Caps): (r: seq<string>)
    ensures |r| == |NonNull(cs)|
    ensures forall j :: 0 <= j < |r| ==> r[j] != []
  {
    var f := NonNull(cs);
    seq(|f|, j requires 0 <= j < |f| => QuotedEntry(f[j]))
  }

  /** One more capability adds its entry exactly when it is not null. */
  lemma QuotedEntriesSnoc(cs: Caps, e: (string, CapValue))
    ensures QuotedEntries(cs + [e]) == QuotedEntries(cs) + (if e.1 == Null then [] else [QuotedEntry(e)])
  {
    NonNullSnoc(cs, e);
  }

  /** `capabilitiesToQuotedCmdlineArg` as a reference definition: `{}` for
      absent capabilities, otherwise the quoted entries of the non-null
      capabilities, separated by `, `, between braces. */
  function QuotedCmdlineArg(caps: Option<Caps>): string {
    match caps
    case None => "{}"
    case Some(cs) => "{" + Join(QuotedEntries(cs), ", ") + "}"
  }

  /** `capabilitiesToQuotedCmdlineArg`, written as the source writes it: one
      pass over the entries that skips nulls and puts `, ` in front of an
      entry whenever the buffer is already non-empty. */
  method CapabilitiesToQuotedCmdlineArg(caps: Option<Caps>) returns (r: string)
    ensures r == QuotedCmdlineArg(caps)
  {
    if caps.None? {
      return "{}";
    }
    var cs := caps.value;
    var result: string := [];
    var i := 0;
    while i < |cs|
      invariant 0 <= i <= |cs|
      invariant result == Join(QuotedEntries(cs[..i]), ", ")
      invariant result == [] <==> QuotedEntries(cs[..i]) == []
    {
      var entry := cs[i];
      ghost var done := QuotedEntries(cs[..i]);
      QuotedPrefixStep(cs, i);
      if entry.1 != Null {
        var e := QuotedEntry(entry);
        JoinStep(done, e, result);
        if |result| > 0 {
          result := result + ", ";
        }
        result := result + e;
      }
      i := i + 1;
    }
    assert cs[..|cs|] == cs;
    r := "{" + result + "}";
  }

  /** The quoted entries of one more prefix entry. */
  lemma QuotedPrefixStep(cs: Caps, i: nat)
    requires i < |cs|
    ensures cs[i].1 == Null ==> QuotedEntries(cs[..i + 1]) == QuotedEntries(cs[..i])
    ensures cs[i].1 != Null ==> QuotedEntries(cs[..i + 1]) == QuotedEntries(cs[..i]) + [QuotedEntry(cs[i])]
  {
    assert cs[..i + 1] == cs[..i] + [cs[i]];
    QuotedEntriesSnoc(cs[..i], cs[i]);
    assert QuotedEntries(cs[..i]) + [] == QuotedEntries(cs[..i]);
  }

  /** Appending one more element to a `, `-joined buffer: the separator goes
      in front of it exactly when the buffer is non-empty. */
  lemma JoinStep(done: seq<string>, e: string, buffer: string)
    requires buffer == Join(done, ", ") && (buffer == [] <==> done == []) && e != []
    ensures var next := (if |buffer| > 0 then buffer + ", " else buffer) + e;
            next == Join(done + [e], ", ") && next != [] && done + [e] != []
  {
    JoinSnoc(done, e, ", ");
  }

  /** Null-valued capabilities leave no trace in the quoted serialisation. */
  lemma QuotedIgnoresNulls(cs: Caps)
    ensures QuotedCmdlineArg(Some(cs)) == QuotedCmdlineArg(Some(NonNull(cs)))
  {
    NonNullIdempotent(cs);
  }

  /** Shape of a quoted string value: for a path capability the backslashes
      become forward slashes and nothing else changes; for any other
      capability the string is kept verbatim. Either way it sits between
      escaped quotes. */
  lemma QuotedStringValue(key: string, s: string)
    ensures var inner := if key in PathCapabilities then ReplaceChar(s, '\\', '/') else s;
            && QuotedValue(key, Str(s)) == EscapedQuote + inner + EscapedQuote
            && |inner| == |s|
            && (key in PathCapabilities ==> '\\' !in inner)
            && (forall i :: 0 <= i < |s| && s[i] != '\\' ==> inner[i] == s[i])
  {
    ReplaceCharEliminates(s, '\\', '/');
  }

  /** An entry is the escaped-quoted key and `: `, followed by the value:
      its text when it is not a string, and the quoted, possibly
      slash-converted string otherwise. */
  lemma QuotedEntryParts(e: (string, CapValue))
    requires e.1 != Null
    ensures var head := EscapedQuote + e.0 + EscapedQuote + ": ";
            var r := QuotedEntry(e);
            && |head| <= |r| && r[..|head|] == head
            && (e.1.Other? ==> r[|head|..] == e.1.text)
            && (e.1.Str? ==> r[|head|..] == EscapedQuote + (if e.0 in PathCapabilities then ReplaceChar(e.1.s, '\\', '/') else e.1.s) + EscapedQuote)
  {
    var head := EscapedQuote + e.0 + EscapedQuote + ": ";
    assert QuotedEntry(e) == head + QuotedValue(e.0, e.1);
  }

  /** Two non-null capabilities serialise as their two entries, separated by
      `, `, between braces. */
  lemma QuotedPair(e0: (string, CapValue), e1: (string, CapValue))
    requires e0.1 != Null && e1.1 != Null
    ensures QuotedCmdlineArg(Some([e0, e1])) == "{" + QuotedEntry(e0) + ", " + QuotedEntry(e1) + "}"
  {
    NonNullSnoc([], e0);
    NonNullSnoc([e0], e1);
    assert [e0] + [e1] == [e0, e1];
    var q0 := QuotedEntry(e0);
    var q1 := QuotedEntry(e1);
    assert QuotedEntries([e0, e1]) == [q0, q1];
    assert [q0, q1][..1] == [q0];
  }

  /** The serialisation of a Windows path under the `app` capability, next to
      a plain string capability: keys and strings are wrapped in escaped
      quotes, and the path is written with forward slashes. */
  lemma QuotedPathExample()
    ensures var q := EscapedQuote;
            && QuotedCmdlineArg(Some([("platformName", Str("Android")), ("app", Str("C:\\a"))]))
            == "{" + (q + "platformName" + q + ": " + q + "Android" + q) + ", "
                   + (q + "app" + q + ": " + q + "C:/a" + q) + "}"
  {
    QuotedPair(("platformName", Str("Android")), ("app", Str("C:\\a")));
    QuotedEntryExamples();
  }

  /** A null between two non-null capabilities is filtered out. */
  lemma DropNullExample(e0: (string, CapValue), e1: (string, CapValue), e2: (string, CapValue))
    requires e0.1 != Null && e1.1 == Null && e2.1 != Null
    ensures QuotedCmdlineArg(Some([e0, e1, e2])) == QuotedCmdlineArg(Some([e0, e2]))
  {
    assert NonNull([e0]) == [e0] by {
      NonNullSnoc([], e0);
    }
    assert NonNull([e0, e1]) == [e0] by {
      NonNullSnoc([e0], e1);
      assert [e0] + [e1] == [e0, e1];
    }
    assert NonNull([e0, e1, e2]) == [e0, e2] by {
      NonNullSnoc([e0, e1], e2);
      assert [e0, e1] + [e2] == [e0, e1, e2];
    }
    assert NonNull([e0, e2]) == [e0, e2] by {
      NonNullSnoc([e0], e2);
      assert [e0] + [e2] == [e0, e2];
    }
  }

  /** The entries the two examples are made of. */
  lemma QuotedEntryExamples()
    ensures var q := EscapedQuote;
            && QuotedEntry(("platformName", Str("Android"))) == q + "platformName" + q + ": " + q + "Android" + q
            && QuotedEntry(("app", Str("C:\\a"))) == q + "app" + q + ": " + q + "C:/a" + q
            && QuotedEntry(("appPackage", Str("C:\\a"))) == q + "appPackage" + q + ": " + q + "C:\\a" + q
            && QuotedEntry(("newCommandTimeout", Other("60"))) == q + "newCommandTimeout" + q + ": " + "60"
  {
    assert "app" in PathCapabilities;
    assert "appPackage" !in PathCapabilities;
    assert "platformName" !in PathCapabilities;
    assert ReplaceChar("C:\\a", '\\', '/') == "C:/a";
  }

  /** A backslash in a capability that is not a path capability is kept, a
      null capability is dropped, and a non-string value is written unquoted. */
  lemma QuotedNonPathExample()
    ensures var q := EscapedQuote;
            && QuotedCmdlineArg(Some([("appPackage", Str("C:\\a")), ("noReset", Null), ("newCommandTimeout", Other("60"))]))
            == "{" + (q + "appPackage" + q + ": " + q + "C:\\a" + q) + ", "
                   + (q + "newCommandTimeout" + q + ": " + "60") + "}"
  {
    var e0 := ("appPackage", Str("C:\\a"));
    var e2 := ("newCommandTimeout", Other("60"));
    DropNullExample(e0, ("noReset", Null), e2);
    QuotedPair(e0, e2);
    QuotedEntryExamples();
  }

  /** Which serialisation goes on the command line: the quoted one exactly
      when quoting was requested and the host is Windows, the JSON
      serialisation (an external library, passed in as `toJson`) otherwise. */
  function CapabilitiesToCmdlineArg(cs: Caps, autoQuoteOnWindows: bool, isWindows: bool,
                                    toJson: Caps -> string): (r: string)
    ensures autoQuoteOnWindows && isWindows ==> r == QuotedCmdlineArg(Some(cs))
    ensures !(autoQuoteOnWindows && isWindows) ==> r == toJson(cs)
  {
    if autoQuoteOnWindows && isWindows then QuotedCmdlineArg(Some(cs)) else toJson(cs)
  }

  // ---------------------------------------------------------------------------
  // score
  // ---------------------------------------------------------------------------

  /** `Capabilities.getBrowserName`: the text of the `browserName` capability,
      or the empty string when it is absent or null. */
  function BrowserName(cs: Caps): (r: string)
    ensures GetCapability(cs, BrowserNameKey) == Null ==> r == []
    ensures GetCapability(cs, BrowserNameKey).Str? ==> r == GetCapability(cs, BrowserNameKey).s
    ensures GetCapability(cs, BrowserNameKey).Other? ==> r == GetCapability(cs, BrowserNameKey).text
  {
    match GetCapability(cs, BrowserNameKey)
    case Null => ""
    case Str(s) => s
    case Other(t) => t
  }

  /** Chrome and Safari are matched exactly, Android ignoring case. */
  predicate IsScoredBrowser(name: string) {
    || name == ChromeBrowser
    || EqualsIgnoreCase(name, AndroidBrowser)
    || name == SafariBrowser || name == SafariCapitalised
  }

  /** One point for a platform name, one for a recognised browser. */
  function Score(cs: Caps): (r: int)
    ensures 0 <= r <= 2
    ensures r == 0 <==> GetCapability(cs, PlatformNameKey) == Null && !IsScoredBrowser(BrowserName(cs))
    ensures r == 2 <==> GetCapability(cs, PlatformNameKey) != Null && IsScoredBrowser(BrowserName(cs))
  {
    var platform := if GetCapability(cs, PlatformNameKey) != Null then 1 else 0;
    var browser := if IsScoredBrowser(BrowserName(cs)) then 1 else 0;
    platform + browser
  }

  /** The score only looks at `platformName` and `browserName`: two capability
      sets that agree on those score the same, whatever else they hold. */
  lemma ScoreDependsOnlyOnPlatformAndBrowser(a: Caps, b: Caps)
    requires GetCapability(a, PlatformNameKey) == GetCapability(b, PlatformNameKey)
    requires GetCapability(a, BrowserNameKey) == GetCapability(b, BrowserNameKey)
    ensures Score(a) == Score(b)
  {
  }

  /** Concrete browser names: both `ANDROID` and `android` score, `Chrome`
      does not, and `Safari` next to a platform name scores 2. */
  lemma ScoreBrowserCase()
    ensures Score([(BrowserNameKey, Str("ANDROID"))]) == 1
    ensures Score([(BrowserNameKey, Str("android"))]) == 1
    ensures Score([(BrowserNameKey, Str("Chrome"))]) == 0
    ensures Score([(PlatformNameKey, Str("iOS")), (BrowserNameKey, Str("Safari"))]) == 2
  {
    assert EqualsIgnoreCase("ANDROID", AndroidBrowser);
    assert EqualsIgnoreCase("android", AndroidBrowser);
    assert !EqualsIgnoreCase("Chrome", AndroidBrowser);
    var ios: Caps := [(PlatformNameKey, Str("iOS")), (BrowserNameKey, Str("Safari"))];
    assert GetCapability(ios, PlatformNameKey) == Str("iOS");
    assert ios[1..] == [(BrowserNameKey, Str("Safari"))];
    assert GetCapability(ios, BrowserNameKey) == Str("Safari");
  }

  /** Every string that matches `Android` ignoring case is a scored browser
      name; a string that differs from `chrome`, `safari` and `Safari` and
      does not match `Android` is not. */
  lemma ScoreBrowserName(name: string)
    ensures EqualsIgnoreCase(name, AndroidBrowser) ==> Score([(BrowserNameKey, Str(name))]) == 1
    ensures (&& name != ChromeBrowser && name != SafariBrowser && name != SafariCapitalised
             && !EqualsIgnoreCase(name, AndroidBrowser))
            ==> Score([(BrowserNameKey, Str(name))]) == 0
  {
    assert GetCapability([(BrowserNameKey, Str(name))], BrowserNameKey) == Str(name);
  }

  /** Android is recognised even with a dotless `ı` or a dotted `İ` for its
      `i`: Java's case mapping sends both to an ASCII `I`. */
  lemma ScoreDotlessAndDottedI()
    ensures Score([(BrowserNameKey, Str("andro\U{0131}d"))]) == 1
    ensures Score([(BrowserNameKey, Str("ANDRO\U{0130}D"))]) == 1
  {
    assert EqualsIgnoreCase("andro\U{0131}d", AndroidBrowser);
    assert EqualsIgnoreCase("ANDRO\U{0130}D", AndroidBrowser);
  }
}
