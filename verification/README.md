# Landing-page behaviour of js/main.js, modelled in Dafny

This project models the logic inside the script that drives a course landing
page, with the DOM taken out. What remains:

- **Header scroll state machine** (`handleScroll`). On every scroll tick the
  header gains or loses its `scrolled` and `nav-hidden` classes. The decision
  uses the threshold of 50 px and the direction relative to the module-level
  `lastScroll`, which every tick then overwrites. Modelled as the class
  `HeaderScroll.Header`, specified by the pure step `HeaderScroll.Step`.
- **Course-info CTA** (`handleCourseInfoCta`). This decides whether the floating
  box has `visible` and what inline `display` its "Explore the Course" button
  gets. The inputs are the hero's bottom edge, the scroll offset, the window
  and document heights and the window width; 960 px splits mobile from desktop.
  Modelled as the class `CourseInfoCta.Controller`, specified by
  `CourseInfoCta.Decide`.
- **Stat-number text** (`animateNumber` and the last frame of `animateCountUp`).
  The trimmed label is read as currency (`$`), as a plain number, or as
  neither. The count-up then ends on the floored value with en-US thousands
  separators. Modelled as pure functions in `StatNumber`: `Trim`,
  `RemoveChars`, `ParseFloat`, `Group`, `AnimateNumber`, `FinalFrame` and
  `SettledText`.
- **Reveal groups** (`initStatCardsAnimation`, `initRequirementsChecklistAnimation`).
  On an intersecting entry, the observer callback hands one timer per item to
  `setTimeout`, with delay `index * 200` for stat cards and `index * 250` for
  checklist items. It then unobserves the container. Modelled as the class
  `Reveal.RevealGroup` and the loop `Reveal.ScheduleItems`. The stat card's timer
  callback is `Reveal.StatCard.Reveal`.
- **Anchor links** (the click handler on `a[href^="#"]`). Hrefs longer than one
  character are intercepted. When the target exists, the destination passed to
  `window.scrollTo` is `top + pageYOffset - 100`. Modelled as `AnchorScroll.OnClick`.

Browser inputs are parameters:

- the scroll offset;
- the hero's and the target's bounding-rectangle edges;
- the window and document sizes;
- which elements the start-up lookups found;
- the `isIntersecting` flags of each observer batch.

Class lists are sets of class names. The button's inline display is a string.

Some consequences of the code as written:

- A label that is not a number is rewritten with its trimmed text
  (js/main.js:175). `"  N/A "` becomes `"N/A"`.
- A `$` label whose currency parse fails is never taken for a plain number.
  The plain parse (js/main.js:167-169) runs, but it strips only commas, so
  parseFloat meets the `$` first and fails.
- A space after the `$` does no harm: `"$ 1,000"` loses `$` and `,`, becomes
  `" 1000"`, and parseFloat skips the space. It settles on `"$1,000"`.
- On desktop, hiding the CTA box does not touch the button. A `none` left by an
  earlier mobile-layout call survives until the box is shown again.
- The href test `href !== '#'` is redundant. `"#"` already fails `href.length > 1`.
- js/main.js has no mobile navigation toggle.

## Model

| member | source | states |
|---|---|---|
| `HeaderScroll.Step` | js/main.js:6-29 | every tick sets lastScroll to the offset s. At s <= 50 neither `scrolled` nor `nav-hidden` remains. Above 50 `scrolled` is set, and `nav-hidden` is set exactly when s > the previous lastScroll (an equal offset shows the nav). No other header class changes. |
| `HeaderScroll.Header.Tick` | js/main.js:6-29 | the in-place tick: the header's new state is `Step` of its old state. It restates the threshold and direction facts on the fields. |
| `HeaderScroll.Header.constructor` | js/main.js:2-4 | lastScroll starts at 0 and the header keeps the classes of its markup |
| `HeaderScroll.RunEndsOnLastTwo` | js/main.js:10-28 | after any non-empty run of ticks, `scrolled` holds iff the last offset is > 50. `nav-hidden` holds iff the last offset is also above the one before it. lastScroll is the last offset, and other classes are as they started. |
| `HeaderScroll.DownThenUp` | js/main.js:18-25 | scrolling down above the threshold hides the nav, and the next tick upwards (still above 50) shows it again while `scrolled` stays |
| `CourseInfoCta.Decide` | js/main.js:40-80 | a missing box or hero changes nothing. On mobile (width <= 960) the box is always `visible`, and an existing button gets `''` iff heroBottom <= 0 and scroll + windowHeight < documentHeight - 100, otherwise `'none'`. On desktop the box is `visible` iff both conditions hold, and showing it sets the button to `''`. Hiding it leaves the button's display unchanged. No other box class changes. |
| `CourseInfoCta.Controller.Handle` | js/main.js:40-80 | the in-place call: the box classes and button display become `Decide` of the old ones |
| `CourseInfoCta.Controller.constructor` | js/main.js:34-38 | the controller keeps which of box, hero and button the start-up lookups found |
| `CourseInfoCta.DecideIdempotent` | js/main.js:40-80 | a second call with the same geometry changes nothing |
| `CourseInfoCta.ShownMeansButtonShown` | js/main.js:57-75 | past the hero and not at the bottom, the box is visible and the button displayed in both layouts, whatever the previous display was |
| `CourseInfoCta.DesktopHideKeepsStaleDisplay` | js/main.js:66-78 | a mobile call that hides the button, followed by a desktop call that hides the box, leaves the button at `'none'` |
| `StatNumber.LeadingSpaces` | js/main.js:155 | the count of white-space characters opening the text: all of them are white space, and the next one is not |
| `StatNumber.TrailingSpaces` | js/main.js:155 | the same for the white space closing the text |
| `StatNumber.Trim` | js/main.js:155 | the result neither starts nor ends with ECMAScript white space. A text that does neither is returned unchanged, and an all-white-space text becomes empty. |
| `StatNumber.TrimSlice` | js/main.js:155 | the trimmed text is one slice of the text, and everything outside that slice is white space |
| `StatNumber.RemoveChars` | js/main.js:167 | deleting characters never makes a text longer |
| `StatNumber.RemoveCharsAppend` | js/main.js:159 | deleting from a concatenation deletes from each part separately, so the kept characters stay in order |
| `StatNumber.RemoveCharsDrops` | js/main.js:159 | after `replace(/[$,]/g, '')` or `replace(/,/g, '')`, a character is in the result iff it was in the text and is not deleted |
| `StatNumber.RemoveCharsKeeps` | js/main.js:167 | a text containing nothing to delete comes back unchanged |
| `StatNumber.DigitRun` | js/main.js:168 | the length of the digit run opening the text: all digits, followed by a non-digit or the end |
| `StatNumber.ParseFloat` | js/main.js:168-169 | parseFloat is not NaN exactly when, after leading white space, the text opens with a digit or with `.` and a digit |
| `StatNumber.LeadingSpacesOf` | js/main.js:159 | white space followed by a non-space character: the white space is exactly what opens the text |
| `StatNumber.ParseSkipsSpace` | js/main.js:159-168 | leading white space changes nothing: parseFloat of white space and t is parseFloat of t |
| `StatNumber.ParseDigits` | js/main.js:168 | a digit run followed by nothing numeric parses to its own value with no fraction |
| `StatNumber.ParseWhole` | js/main.js:159-168 | after any white space, a digit run followed by a non-digit (a fraction, `%`, a unit) parses, and its floor is the run's value |
| `StatNumber.ParseFraction` | js/main.js:159-168 | after any white space, `.` and digits parse to whole part 0 with those digits as the fraction, so the floor is 0 |
| `StatNumber.DollarDoesNotParse` | js/main.js:168-169 | a text opening with `$` is NaN to parseFloat |
| `StatNumber.AnimateNumber` | js/main.js:154-176 | the label shows its trimmed text iff neither parse succeeds. A trimmed text opening with `$` whose `$`- and `,`-free form parses is a currency count-up to that parsed value, with prefix `$`. Currency is chosen only for such texts. A plain count-up has prefix `''` and counts up to the parse of the trimmed, `,`-free text. |
| `StatNumber.DollarTextNeverPlain` | js/main.js:158-172 | a `$` text whose currency parse fails is never taken for a plain number: it ends shown as it is |
| `StatNumber.Digits` | js/main.js:206 | the numeral of n: non-empty, all digits, value n, no leading zero, and `"0"` for 0 |
| `StatNumber.DigitsShort` | js/main.js:206 | a number below 1000 has at most three digits |
| `StatNumber.Pad3` | js/main.js:206 | a group after a separator is exactly three digits worth k |
| `StatNumber.Group` | js/main.js:206-208 | en-US grouping of n: non-empty, starting and ending with a digit, only digits and commas, with a comma iff n >= 1000. It is `"0"` for 0 and has no leading zero otherwise. |
| `StatNumber.GroupCommas` | js/main.js:206-208 | in `Group(n)` a comma stands exactly at places 4, 8, 12, ... counted from the right, so every group after the first has three digits |
| `StatNumber.SeparatorJoin` | js/main.js:206-208 | adding a comma and a group of three digits keeps the commas every four places |
| `StatNumber.GroupDigits` | js/main.js:159-168 | deleting the commas (and any `$`) from `Group(n)` leaves digits whose value is n |
| `StatNumber.ReadsPlain` | js/main.js:166-170 | a grouped number is read back as a plain count-up to n |
| `StatNumber.ReadsCurrency` | js/main.js:158-161 | `"$"` and a grouped number is read back as a currency count-up to n with prefix `$` |
| `StatNumber.FinalFrame` | js/main.js:204-209 | the final frame is non-empty and ends in a digit. Without currency, or with the `$` prefix, it starts with a digit or `$`, and neither end is white space, so `trim` keeps it. |
| `StatNumber.FinalFrameReadsBack` | js/main.js:154-209 | animateNumber reads every final frame back as a count-up to the floored target, with the same currency choice and prefix |
| `StatNumber.SpacedCurrencyParse` | js/main.js:158-160 | deleting `$` and `,` from `"$ "` and a grouped number leaves a space and digits, which parse to the number |
| `StatNumber.ReadsSpacedCurrency` | js/main.js:154-209 | `"$ "` and a grouped number settles on `"$"` and the grouped number, without the space |
| `StatNumber.SettledText` | js/main.js:204-209 | the final text a label settles on is trimmed |
| `StatNumber.RoundTrip` | js/main.js:204-209 | for every n, `Group(n)` and `"$" + Group(n)` settle on themselves |
| `StatNumber.SettledFixedPoint` | js/main.js:154-209 | a label is left as it is iff it is trimmed and non-numeric, or it is a canonically grouped number with or without `$` |
| `StatNumber.SettledIdempotent` | js/main.js:154-209 | running the number animation on its own result changes nothing |
| `StatNumber.SettledPlain` | js/main.js:155-170 | digits followed by any comma-free tail that does not open with a digit (`.5`, `%`, ` units`, trailing white space included) settle on the grouped value of the digits |
| `StatNumber.SettledPlainTrimmed` | js/main.js:167-170 | the same for a tail that does not end in white space, so that `trim` leaves the text as it is |
| `StatNumber.TrimPlain` | js/main.js:155 | trimming digits and a tail removes exactly the white space closing the tail, and what remains of the tail does not end in white space |
| `StatNumber.TrimUnique` | js/main.js:155 | a slice with white space all around it and no white space at either end is the trimmed text |
| `StatNumber.SettledTrim` | js/main.js:155 | a label settles on the same text as its trimmed form, since `animateNumber` trims first |
| `StatNumber.GroupTrimmed` | js/main.js:155-161 | `Group(n)`, after `$`, `"$ "` or nothing, is left unchanged by `trim` |
| `StatNumber.StripSpacedDollar` | js/main.js:159 | deleting `$` and `,` from `"$ "` and a text leaves a space and the text with `$` and `,` deleted |
| `StatNumber.ParseSpacedDigits` | js/main.js:159-160 | a space followed by a non-empty digit run parses to the run's value with no fraction |
| `StatNumber.SettledWord` | js/main.js:166-175 | a label whose trimmed text starts with a character that cannot begin a number (no digit, `.`, `$` or `,`) settles on its trimmed text |
| `StatNumber.ExampleCurrency` | js/main.js:204-206 | `"$12,345"` ends as `"$12,345"` |
| `StatNumber.ExamplePlain` | js/main.js:207-208 | `"42"` ends as `"42"` |
| `StatNumber.ExampleFraction` | js/main.js:168-208 | `"4.5"` ends as `"4"` |
| `StatNumber.ExampleSuffix` | js/main.js:168-208 | `"42%"` ends as `"42"` |
| `StatNumber.ExampleText` | js/main.js:174-175 | `"  N/A "` ends as `"N/A"` |
| `Reveal.Schedule` | js/main.js:133-144 | one pass over `count` items has `count` timers, and timer i reveals item i after i * stagger ms |
| `Reveal.ScheduleItems` | js/main.js:231-235 | the forEach loop builds exactly `Schedule(count, stagger)` |
| `Reveal.DelaysIncrease` | js/main.js:143 | with a positive stagger the first delay is 0 and delays strictly increase, consecutive items being one stagger apart |
| `Reveal.FourStatCards` | js/main.js:133-144 | four stat cards are revealed at 0, 200, 400 and 600 ms |
| `Reveal.ThreeChecklistItems` | js/main.js:231-235 | three checklist items are revealed at 0, 250 and 500 ms |
| `Reveal.Intersecting` | js/main.js:131-132 | the count of intersecting entries in a batch is zero iff none is intersecting |
| `Reveal.RevealGroup.constructor` | js/main.js:118-150 | with no items or no container nothing is observed, and otherwise the container is observed and no timer is set |
| `Reveal.RevealGroup.Notify` | js/main.js:130-147 | the callback as written: every intersecting entry appends one full pass of timers and unobserves the container |
| `Reveal.RevealGroup.NotifyOnce` | js/main.js:130-147 | the corrected callback: exactly one pass is appended iff the container was observed and some entry intersects |
| `Reveal.RevealGroup.Fire` | js/main.js:135-136 | an expiring timer adds its item, one of the group's own items, to the revealed set |
| `Reveal.AsWrittenOnlyFirstBatch` | js/main.js:145 | across callbacks the code fires at most once: when no batch holds two intersecting entries, the total number of passes is at most one |
| `Reveal.AsWrittenDoubleFire` | js/main.js:131-146 | a single batch with two intersecting entries schedules the group twice |
| `Reveal.OnceFiresAtMostOnce` | js/main.js:145 | with the corrected callback, any sequence of batches schedules at most one pass |
| `Reveal.StatCard.constructor` | js/main.js:119 | a card starts un-animated, with its label text |
| `Reveal.StatCard.Reveal` | js/main.js:135-142 | the timer callback sets `animate`, and a label that exists ends on `SettledText` of its old text |
| `AnchorScroll.OnClick` | js/main.js:98-114 | default navigation is prevented iff the href has at least two characters. A scroll happens iff it is prevented and the target exists. The destination passed to `window.scrollTo` is the target's document top minus 100, that is `top + pageYOffset - 100`. |
| `AnchorScroll.Intercepts` | js/main.js:100 | the guard `href !== '#' && href.length > 1` holds iff the href has at least two characters |
| `AnchorScroll.SectionExample` | js/main.js:100-111 | `#section` at top 640 and offset 1200 hands 1740 to `scrollTo`. `#` is not intercepted, and a missing target is intercepted with no scroll. |

## Findings

| source | as written | input that shows it | evidently intended | confidence | as-written member | corrected member |
|---|---|---|---|---|---|---|
| js/main.js:131-146 | `entries.forEach` keeps going after `observer.unobserve(entry.target)`, so each intersecting entry in the same batch schedules the whole group again | one callback delivering two intersecting entries for the container, for example a crossing of the 0.2 threshold upwards and then downwards (still intersecting) before the callback runs | the group is scheduled at most once per page load | low; not executed; it needs the browser to queue two entries for the container before one callback | `Reveal.AsWrittenDoubleFire` | `Reveal.OnceFiresAtMostOnce` |

What a double fire leaves in a stat label is mostly harmless. Each card gets two timers with the same delay, and each runs `animateNumber`. The count-up writes its first frame only from a rendering frame (js/main.js:213), so the second timer normally runs before any frame and reads the original text. Both count-ups then end on the same value. The final text changes only when a rendering frame runs between the two timers. The second call then reads an intermediate value, counts up to it and, finishing last, leaves the label there. `Reveal.StatCard.Reveal` is atomic, so the model does not capture that interleaving.

## Left out

- The scroll throttle (js/main.js:83-93) is left out. `requestAnimationFrame` and the `ticking` flag only decide when `Tick` and `Handle` run, not what they do.
- Start-up wiring is left out. `init` (js/main.js:256-263) also calls `handleScroll` and `handleCourseInfoCta` once (js/main.js:258-259); those are the modelled `HeaderScroll.Header.Tick` and `CourseInfoCta.Controller.Handle`, run on the initial offset and geometry. What is not modelled is the ready-state check (js/main.js:266-270) and `initHeroPromoCardAnimation` (js/main.js:244-253), a fixed 300 ms timer that adds `animate` to the hero promo card.
- The count-up's intermediate frames (js/main.js:179-202) are left out. They are floating-point easing sampled per frame, and only the exact final frame is modelled.
- Observer options are not modelled: thresholds 0.2 and 0.3, root and margin. The `isIntersecting` flags of each batch are inputs. When timers expire is up to the host, and `Fire` takes any scheduled timer.
- DOM lookups are not modelled (`getElementById`, `querySelector(All)`, `getBoundingClientRect`). Their results are inputs: element presence as booleans, rectangle edges as integers.
- `window.scrollTo`'s smooth animation is host I/O; only its destination is modelled.
- `AnchorScroll.OnClick`: the browser clamps the `scrollTo` destination to the scrollable range, from 0 to the document height minus the window height. A target less than 100 px from the document's top (its destination is negative), or one near the document's end, therefore does not end 100 px below the viewport top. The model states only the destination handed to `scrollTo`.
- `AnchorScroll.OnClick`: `document.querySelector(href)` throws on an href that is not a valid selector (such as `#1intro`). That happens after `preventDefault`, so it is modelled as a missing target: prevented, no scroll. The exception itself is not modelled.
- `AnchorScroll.OnClick`: `href.length` counts UTF-16 code units, while a Dafny string counts code points. The two differ only for hrefs with characters outside the Basic Multilingual Plane.
- `StatNumber.ParseFloat` reads only non-negative decimals. A leading sign, an exponent (`1e3`) and `Infinity` are not parsed: such a text is classified by the digits before them, or as non-numeric. Float precision above 2^53 is not modelled either; the integers are unbounded.
- `StatNumber.ParseFloat` keeps the fraction digits exactly, and `Floor` drops them. A real parseFloat rounds to a double: a long fraction such as `"0.99999999999999999"` parses to 1 and settles on `"1"`, where the model gives `"0"`.
- The `#header` element is assumed to exist. js/main.js:2 never checks it for null, so without it `handleScroll` throws. Inside the throttled callback the throw leaves `ticking` true (js/main.js:86-91), so no later tick runs `handleScroll` or `handleCourseInfoCta`. At start-up it aborts `init` (js/main.js:258) before the reveal groups are set up. `HeaderScroll.Header` has no missing-header case.
- `StatNumber.Group` covers only non-negative integers, because the model never parses a negative number. No locale data beyond en-US comma grouping is modelled.
- `HeaderScroll.Header.Tick` takes the scroll offset as a non-negative integer. Fractional offsets and the negative offsets of elastic overscroll are not modelled.
- `CourseInfoCta.Controller.Handle` takes the geometry as integers. Fractional rectangle edges are not modelled.
