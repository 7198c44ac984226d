# kgoh-net page logic in Dafny

A model of the sequential logic inside the portfolio page's `script.js`,
with the DOM wiring stripped away. The parts modelled are:

- the minimap navigation: six sections on a fixed waypoint table, an arrow
  that moves to a clicked section and turns toward a hovered one
  (`Minimap`);
- the music-player controls: play/pause over a three-track playlist with
  prev/next wrap-around (`MusicPlayer`);
- the status bar: browser and OS classification of the user-agent string by
  ordered first-match substring search, and the resolution text
  (`StatusBar`, built on `TextSearch` for `indexOf`);
- the clock `HH:MM:SS` and the last-updated date `YYYY.MM.DD` (`Clock`, built
  on `Decimal` for `String(n)` and `padStart(2, '0')`);
- the retro-mode switch and the flag it persists (`RetroMode`).

Every handler is a pure function from the old state to the new one. The
player's handlers require the track index to lie inside the playlist; the
page never breaks that, and `MusicPlayer.Run` proves it is kept. The
things a browser supplies are parameters: the user-agent string, the screen
size, the calendar fields of a `Date`, the stored `retroMode` value, and the
texts the markup shows before the first click.

The arrow's rotation is abstract. A `Heading` is either `Initial`, the
literal angle 0 set on load, or `Toward(from, to)`, which stands for the
angle `calculateAngle(from, to)` returns. Different headings can render the
same angle. For example, Resume to Studies points straight up, just like
`Initial`. So "the heading is unchanged" is a stronger claim than "the angle
is unchanged".

The detection order has consequences. They are proved here as properties of
the code as written, not reported as defects:

- a user agent that names both Chrome and Safari, and not Firefox, reports
  CHROME;
- EDGE is reported only when none of Firefox, Chrome or Safari is named;
- a user agent that names both Linux and Android, and neither Win nor Mac,
  reports LINUX;
- IOS is reported only when none of Win, Mac, Linux or Android is named.
  An iPhone user agent says "like Mac OS X", so it reports MACOS.

## Model

| member | source | states |
|---|---|---|
| Decimal.NatToString | script.js:110-112 | `String(n)` is a non-empty run of digits whose first digit is 0 exactly when n is 0 (no leading zeros) |
| Decimal.NatToStringRoundTrip | script.js:110-112 | reading the digits of `String(n)` back gives n |
| Decimal.IntToStringRoundTrip | script.js:167 | `String(year)` for any integer year, sign included, reads back as that year |
| Decimal.NatToStringLength | script.js:110-112 | `String(n)` has at most k digits exactly when n < 10^k |
| Decimal.PadStart | script.js:110-112 | `padStart(width, fill)` gives length max(width, len), the original string as suffix and only fill characters before it |
| Decimal.PadTwoDigits | script.js:166 | for n < 100, `pad(n)` has length 2 and reads back as n |
| Decimal.PadKeepsWide | script.js:166 | for n >= 100, `pad(n)` is `String(n)` unchanged: nothing is truncated |
| TextSearch.IndexOfFrom | script.js:127 | `indexOf` from a position returns the leftmost occurrence at or after it, or -1 when there is none |
| TextSearch.IndexOf | script.js:127-150 | `indexOf(sub) > -1` holds exactly when sub occurs in the string; a result that is not -1 is the leftmost occurrence |
| TextSearch.FirstMatch | script.js:125-150 | an ordered rule table answers the result of the first rule whose pattern occurs, and the default when none occurs |
| StatusBar.DetectBrowser | script.js:124-135 | FIREFOX iff "Firefox" occurs; CHROME iff "Chrome" occurs and "Firefox" does not; SAFARI and EDGE likewise each need every earlier pattern absent |
| StatusBar.DetectOs | script.js:138-150 | WINDOWS iff "Win" occurs; MACOS, LINUX, ANDROID and IOS each iff their pattern occurs and every earlier one is absent |
| StatusBar.DetectBrowserIsFirstMatch | script.js:125-135 | the browser chain equals first-match over Firefox, Chrome, Safari, Edge with UNKNOWN as the default |
| StatusBar.DetectOsIsFirstMatch | script.js:138-150 | the OS chain equals first-match over Win, Mac, Linux, Android, iOS with UNKNOWN as the default |
| StatusBar.ChromeBeforeSafari | script.js:129-132 | a user agent naming both Chrome and Safari, and not Firefox, is CHROME |
| StatusBar.EdgeOnlyAlone | script.js:127-135 | EDGE is reported only when "Edge" occurs and none of Firefox, Chrome or Safari does |
| StatusBar.LinuxBeforeAndroid | script.js:144-147 | a user agent naming both Linux and Android, and neither Win nor Mac, is LINUX |
| StatusBar.IosOnlyAlone | script.js:140-149 | IOS is reported only when "iOS" occurs and none of Win, Mac, Linux or Android does |
| StatusBar.AndroidFragmentIsLinux | script.js:140-147 | the user-agent fragment "Linux; Android 10" is classified LINUX |
| StatusBar.NamesRoundTrip | script.js:128-149 | each browser and OS outcome has its own label, which reads back as that outcome |
| StatusBar.ResolutionRoundTrip | script.js:153 | `${width}x${height}` splits at its first 'x' back into width and height |
| StatusBar.DetectSystemInfo | script.js:153-158 | the three status texts are "BROWSER: ", "OS: " and "RES: ", each followed by text that reads back as the detected browser, OS and screen size |
| Clock.ClockTextFormat | script.js:108-114 | for fields below 100 the clock has 8 characters, ':' at positions 2 and 5, and reads back as the same hours, minutes and seconds |
| Clock.YearDigits | script.js:167 | a year from 1000 to 9999 prints as four characters that read back as the year |
| Clock.LastUpdatedFormat | script.js:165-168 | for a four-digit year the label is "UPDATED: " followed by 10 characters that read back as year, month index plus one, and day |
| Clock.DateTextFormat | script.js:165-168 | for a four-digit year the date has 10 characters, '.' at positions 4 and 7, and reads back as year, month index plus one, and day |
| Minimap.WaypointsDistinct | script.js:2-9 | no two sections share a waypoint |
| Minimap.Click | script.js:38-59 | after a click on s the current section is s; the heading is recomputed as (current, s) only when s differs and is kept otherwise; the arrow rests on s's waypoint; locks and indicator are untouched |
| Minimap.Enter | script.js:71-88 | hovering never changes the current section or the stored heading; it shows the lock and the indicator and turns the arrow in place toward a different section, leaving it alone for the current one |
| Minimap.Leave | script.js:90-104 | leaving never changes the current section or the stored heading; it hides the lock and the indicator and puts the arrow on the current waypoint with the stored heading |
| Minimap.ClickIdempotent | script.js:54-59 | clicking the same section twice is the same as clicking it once |
| Minimap.HoverRoundTrip | script.js:71-104 | from a resting arrow, entering and leaving a link whose lock was hidden restores the whole state |
| Minimap.StepKeepsValid | script.js:38-104 | each handler keeps the arrow on the current waypoint and the stored heading the last real move, which ended at the current section |
| Minimap.RunKeepsValid | script.js:38-104 | any sequence of handler events keeps that invariant |
| Minimap.ReachableValid | script.js:15-17 | every state reachable from the initial one (home, pointing up) satisfies that invariant |
| Minimap.ReachableHeadingHasDirection | script.js:2-9 | in every reachable state the stored heading, when not the initial one, joins two distinct waypoints, so its direction is never zero |
| Minimap.HoversKeepPosition | script.js:71-104 | any sequence of hover events leaves the current section and the stored heading unchanged |
| MusicPlayer.NextIndex | script.js:202 | the next index stays in [0, n): it is one more, wrapping from n-1 to 0 |
| MusicPlayer.PrevIndex | script.js:194 | the previous index stays in [0, n): it is one less, wrapping from 0 to n-1 |
| MusicPlayer.PrevNextInverse | script.js:193-207 | for every index in range, prev undoes next and next undoes prev |
| MusicPlayer.Start | script.js:176-182 | the player starts paused on track 0, showing the markup's track name and button text |
| MusicPlayer.Play | script.js:184-191 | play flips the flag and keeps the track; starting shows the track name and the pause glyph; pausing shows the play glyph and keeps the track name |
| MusicPlayer.Prev | script.js:193-199 | prev keeps the flag, moves to the track whose next is the old one, shows its name, and shows pause while playing |
| MusicPlayer.Next | script.js:201-207 | next keeps the flag, moves to the track whose prev is the old one, shows its name, and shows pause while playing |
| MusicPlayer.PlayTwice | script.js:184-191 | pressing play twice restores the flag and the track, and restores everything when the controls already show the state |
| MusicPlayer.PrevAfterNext | script.js:193-207 | prev after next and next after prev restore the track and the flag, and restore everything when the controls already show the state |
| MusicPlayer.AdvanceWraps | script.js:201-202 | k presses of next land on track (i + k) mod 3 and never change the flag |
| MusicPlayer.RunKeepsPlayingShown | script.js:184-207 | while playing, the controls show the current track and the pause glyph after any sequence of presses |
| MusicPlayer.ReachablePlayingShown | script.js:176-207 | that holds in every state reachable from the start, whatever the markup showed first |
| RetroMode.ReadFlag | script.js:220 | on load the flag reads back whatever flag a toggle stored, and is off when the key is absent or holds anything a toggle never writes |
| RetroMode.Apply | script.js:222-232 | applying a flag shows it: body class, button class and "RETRO MODE: ON"/"OFF" label all agree with it |
| RetroMode.Load | script.js:220-235 | the loaded page is on exactly for a stored "true" and shows its flag |
| RetroMode.Toggle | script.js:237-241 | a toggle flips the flag, stores the string form of the new flag, and shows it |
| RetroMode.ToggleSurvivesReload | script.js:220-241 | reloading after a toggle starts in exactly the toggled state: what is persisted is the new state |
| RetroMode.ToggleTwice | script.js:237-241 | toggling twice restores the flag and the display, and storage ends up holding the original flag |

## Left out

- Some DOM writes are kept as fields: the player's track name and button text, the retro body class, label and button class, the three status-bar texts, and the nav lock elements and target indicator. The other writes are not fields:
  - The active nav link, the visible section and the waypoint opacity are all set from the clicked section, so after a click they are represented by `current`. Before the first click the markup decides them.
  - Inline styles and the fade-in opacity are not modelled.
- Decimal.NatToString: gives plain decimal digits for every n. JavaScript's `String(n)` switches to exponent form (`1e+21`) from 10^21 up, and to floating-point rounding beyond 2^53, but the page only formats clock, date and screen-size values far below that.
- TextSearch.IndexOfFrom: returns -1 for a start position past the end. JavaScript's `indexOf` clamps such a position to the length (`"abc".indexOf("", 5)` is 3), but the page only ever searches from position 0, where the two agree.
- `setArrowTransform`'s transform string is not modelled. The arrow is kept as a position plus an abstract heading.
- `calculateAngle`'s `Math.atan2` and degree conversion are floating point. The heading is the pair (from, to) that determines the angle.
- Nav links are assumed to carry one of the six waypoint ids, and the markup that decides this is not part of this model. With any other `data-section`, the click handler throws a TypeError part-way through, when `calculateAngle` reads `to.x`. The active link and the waypoint opacities have been changed by then, but the current section and the heading have not.
- Minimap.Enter and Minimap.Leave assume that every section has a `.waypoint-lock` element and that the page has a `#target-lock-indicator`. The source writes each only if it exists. Minimap.Start also assumes that the locks and the indicator are hidden on load; the script never sets them on load, so the markup decides.
- The user-agent string, screen size, `Date` fields and `document.lastModified` are parameters. The month is given as `getMonth()`'s zero-based index. An unparseable date, which prints "NaN", is not modelled.
- `TextSearch.IndexOf` works on Unicode scalar values, while JavaScript strings are UTF-16 code units. The two differ in positions only past astral characters and never in whether an ASCII pattern occurs, which is all the detection uses.
- `localStorage` is modelled as the optional string under `retroMode`. The I/O itself is left out.
- The `setInterval` clock tick and the load fade-in `setTimeout` are timers on the event loop and are left out. Each clock tick is one evaluation of `Clock.ClockText`.
- Blog expand/collapse is left out because it depends on layout measurement (`scrollHeight`, a forced reflow) and on `transitionend` events.
- The site's weather panel, waypoint trail animation and embedded video player are not in `script.js` and are not part of this model.
