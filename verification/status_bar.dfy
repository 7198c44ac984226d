/** The status bar's system information: the browser and the operating
    system, each picked by an ordered first-match search of the user-agent
    string with UNKNOWN as the default, and the screen resolution. The
    user-agent string and the screen size are parameters. */
module StatusBar {

  import opened Options
  import opened Decimal
  import opened TextSearch

  datatype Browser = Firefox | Chrome | Safari | Edge | UnknownBrowser

  datatype Os = Windows | MacOs | Linux | Android | Ios | UnknownOs

  /** The browser branch of the detection, tested in the page's order. */
  function DetectBrowser(ua: string): (b: Browser)
    ensures b == Firefox <==> Contains(ua, "Firefox")
    ensures b == Chrome <==> !Contains(ua, "Firefox") && Contains(ua, "Chrome")
    ensures b == Safari <==>
      !Contains(ua, "Firefox") && !Contains(ua, "Chrome") && Contains(ua, "Safari")
    ensures b == Edge <==>
      !Contains(ua, "Firefox") && !Contains(ua, "Chrome") && !Contains(ua, "Safari")
      && Contains(ua, "Edge")
  {
    if IndexOf(ua, "Firefox") > -1 then Firefox
    else if IndexOf(ua, "Chrome") > -1 then Chrome
    else if IndexOf(ua, "Safari") > -1 then Safari
    else if IndexOf(ua, "Edge") > -1 then Edge
    else UnknownBrowser
  }

  /** The operating-system branch of the detection, in the page's order. */
  function DetectOs(ua: string): (o: Os)
    ensures o == Windows <==> Contains(ua, "Win")
    ensures o == MacOs <==> !Contains(ua, "Win") && Contains(ua, "Mac")
    ensures o == Linux <==>
      !Contains(ua, "Win") && !Contains(ua, "Mac") && Contains(ua, "Linux")
    ensures o == Android <==>
      !Contains(ua, "Win") && !Contains(ua, "Mac") && !Contains(ua, "Linux")
      && Contains(ua, "Android")
    ensures o == Ios <==>
      !Contains(ua, "Win") && !Contains(ua, "Mac") && !Contains(ua, "Linux")
      && !Contains(ua, "Android") && Contains(ua, "iOS")
  {
    if IndexOf(ua, "Win") > -1 then Windows
    else if IndexOf(ua, "Mac") > -1 then MacOs
    else if IndexOf(ua, "Linux") > -1 then Linux
    else if IndexOf(ua, "Android") > -1 then Android
    else if IndexOf(ua, "iOS") > -1 then Ios
    else UnknownOs
  }

  /** The detection order written as a table. */
  const BrowserRules: seq<Rule<Browser>> :=
    [Rule("Firefox", Firefox), Rule("Chrome", Chrome), Rule("Safari", Safari), Rule("Edge", Edge)]

  const OsRules: seq<Rule<Os>> :=
    [Rule("Win", Windows), Rule("Mac", MacOs), Rule("Linux", Linux),
     Rule("Android", Android), Rule("iOS", Ios)]

  /** Browser detection is the first match over its table, UNKNOWN if none. */
  lemma DetectBrowserIsFirstMatch(ua: string)
    ensures DetectBrowser(ua) == FirstMatch(ua, BrowserRules, UnknownBrowser)
  {
  }

  /** OS detection is the first match over its table, UNKNOWN if none. */
  lemma DetectOsIsFirstMatch(ua: string)
    ensures DetectOs(ua) == FirstMatch(ua, OsRules, UnknownOs)
  {
  }

  /** A Chrome user agent also names Safari; Chrome wins because it is
      tested first. */
  lemma ChromeBeforeSafari(ua: string)
    requires !Contains(ua, "Firefox")
    requires Contains(ua, "Chrome") && Contains(ua, "Safari")
    ensures DetectBrowser(ua) == Chrome
  {
  }

  /** EDGE is only reported for a user agent naming none of the three
      browsers tested before it. */
  lemma EdgeOnlyAlone(ua: string)
    requires DetectBrowser(ua) == Edge
    ensures Contains(ua, "Edge")
    ensures !Contains(ua, "Chrome") && !Contains(ua, "Safari") && !Contains(ua, "Firefox")
  {
  }

  /** An Android user agent also names Linux; Linux wins because it is
      tested first. */
  lemma LinuxBeforeAndroid(ua: string)
    requires !Contains(ua, "Win") && !Contains(ua, "Mac")
    requires Contains(ua, "Linux") && Contains(ua, "Android")
    ensures DetectOs(ua) == Linux
  {
  }

  /** IOS is only reported for a user agent naming none of the four
      systems tested before it; an iPhone's "like Mac OS X" makes it MACOS. */
  lemma IosOnlyAlone(ua: string)
    requires DetectOs(ua) == Ios
    ensures Contains(ua, "iOS")
    ensures !Contains(ua, "Win") && !Contains(ua, "Mac")
    ensures !Contains(ua, "Linux") && !Contains(ua, "Android")
  {
  }

  /** A concrete Android-style fragment is reported as LINUX. */
  lemma AndroidFragmentIsLinux()
    ensures DetectOs("Linux; Android 10") == Linux
  {
    var ua := "Linux; Android 10";
    AbsentFirstChar(ua, "Win");
    AbsentFirstChar(ua, "Mac");
    ContainsAt(ua, "Linux", 0);
  }

  /** The label text of each outcome. */
  function BrowserName(b: Browser): string {
    match b
    case Firefox => "FIREFOX"
    case Chrome => "CHROME"
    case Safari => "SAFARI"
    case Edge => "EDGE"
    case UnknownBrowser => "UNKNOWN"
  }

  function OsName(o: Os): string {
    match o
    case Windows => "WINDOWS"
    case MacOs => "MACOS"
    case Linux => "LINUX"
    case Android => "ANDROID"
    case Ios => "IOS"
    case UnknownOs => "UNKNOWN"
  }

  /** Reads a browser label back. */
  function BrowserOfName(name: string): (r: Option<Browser>)
    ensures r.Some? ==> BrowserName(r.value) == name
  {
    if name == "FIREFOX" then Some(Firefox)
    else if name == "CHROME" then Some(Chrome)
    else if name == "SAFARI" then Some(Safari)
    else if name == "EDGE" then Some(Edge)
    else if name == "UNKNOWN" then Some(UnknownBrowser)
    else None
  }

  function OsOfName(name: string): (r: Option<Os>)
    ensures r.Some? ==> OsName(r.value) == name
  {
    if name == "WINDOWS" then Some(Windows)
    else if name == "MACOS" then Some(MacOs)
    else if name == "LINUX" then Some(Linux)
    else if name == "ANDROID" then Some(Android)
    else if name == "IOS" then Some(Ios)
    else if name == "UNKNOWN" then Some(UnknownOs)
    else None
  }

  /** Distinct outcomes get distinct labels, so the label identifies the outcome. */
  lemma NamesRoundTrip(b: Browser, o: Os)
    ensures BrowserOfName(BrowserName(b)) == Some(b)
    ensures OsOfName(OsName(o)) == Some(o)
  {
  }

  /** `${width}x${height}` */
  function ResolutionText(width: nat, height: nat): string {
    NatToString(width) + "x" + NatToString(height)
  }

  /** Splits a resolution at its first 'x' and reads both numbers. */
  function ParseResolution(t: string): Option<(nat, nat)> {
    var k := IndexOf(t, "x");
    if k < 0 then None
    else
      match (ParseNat(t[..k]), ParseNat(t[k + 1..]))
      case (Some(w), Some(h)) => Some((w, h))
      case _ => None
  }

  lemma ResolutionRoundTrip(width: nat, height: nat)
    ensures ParseResolution(ResolutionText(width, height)) == Some((width, height))
  {
    var w, h := NatToString(width), NatToString(height);
    var t := ResolutionText(width, height);
    assert t[|w|..|w| + 1] == "x";
    assert OccursAt(t, "x", |w|);
    forall j | 0 <= j < |w|
      ensures !OccursAt(t, "x", j)
    {
      assert t[j] == w[j];
      assert t[j..j + 1][0] == t[j];
    }
    var k := IndexOf(t, "x");
    assert k == |w|;
    assert t[..k] == w && t[k + 1..] == h;
    NatToStringRoundTrip(width);
    NatToStringRoundTrip(height);
  }

  /** The three status-bar texts. */
  datatype SystemInfo = SystemInfo(browserText: string, osText: string, resolutionText: string)

  const BrowserPrefix := "BROWSER: "
  const OsPrefix := "OS: "
  const ResolutionPrefix := "RES: "

  /** What `detectSystemInfo` writes into the status bar: each text is its
      prefix followed by a label that reads back as the detected value. */
  function DetectSystemInfo(ua: string, width: nat, height: nat): (r: SystemInfo)
    ensures BrowserPrefix <= r.browserText
    ensures BrowserOfName(r.browserText[|BrowserPrefix|..]) == Some(DetectBrowser(ua))
    ensures OsPrefix <= r.osText
    ensures OsOfName(r.osText[|OsPrefix|..]) == Some(DetectOs(ua))
    ensures ResolutionPrefix <= r.resolutionText
    ensures ParseResolution(r.resolutionText[|ResolutionPrefix|..]) == Some((width, height))
  {
    var b, o := DetectBrowser(ua), DetectOs(ua);
    NamesRoundTrip(b, o);
    ResolutionRoundTrip(width, height);
    var r := SystemInfo(BrowserPrefix + BrowserName(b), OsPrefix + OsName(o),
                        ResolutionPrefix + ResolutionText(width, height));
    assert r.browserText[|BrowserPrefix|..] == BrowserName(b);
    assert r.osText[|OsPrefix|..] == OsName(o);
    assert r.resolutionText[|ResolutionPrefix|..] == ResolutionText(width, height);
    r
  }

}
