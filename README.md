# Ditto core, modelled in Dafny

Ditto is a Swift utility library for SwiftUI apps. This project models the
parts of it that compute, decide or keep state, and proves properties of
that model. One module per source file:

- `HexColor` (color.dfy): `Color.init(hex:)` up to the integer channels.
  That covers trimming the non-alphanumeric ends, the hex scanner, and the
  switch on the digit count.
- `Dates` (date.dfy): the integer arithmetic of the `Date` and
  `TimeInterval` extensions.
  - Seconds and days since 1970, with Swift's truncating `/` and `%`
    written out.
  - `weekDay`, `monthWeeks`, the `DateSpan` raw-value codec, and
    `add(_ span:)`.
  - The calendar is a function parameter that may fail.
- `Hotkeys` (hotkey.dfy): modifier groups, `keyBasePressed`, the first-match
  dispatch of `hotkeysSubscription`, `isModifier` and `baseModifier`. Which
  keys are down is a set of key codes given as input.
- `Layouts` (layout.dfy): the four spacer predicates behind `push(_:)`.
- `Students` (student.dfy): the `Student` record, the `Sex` string codec and
  its SQLite `Value` conversion.
- `DittoErrors` (errors.dfy): the `Errors` description, its format
  arguments, and `==`, which compares descriptions.
- `Http` (http.dfy): the static part of `Http`.
  - The log level and the console log it gates.
  - Error messages and method raw values.
  - What `sendRequest` and `sendRequestForString` return for each outcome
    of a request. The session's answer, the URL parser and the decoders are
    inputs.
- `Preferences` (user_default_state.dfy): the `UserDefaultState` property
  wrapper over a shared `UserDefaults` store. The store is a class holding
  a map. The wrapper records every published value.
- `Collections` (collections.dfy): `Array.indexes`, the indexed `forEach`,
  `appended(_:)` and `appended(contentsOf:)`.
- `OrderedTree` (avl_tree.dfy): the ordered-map contract of `AVLTree` that
  the package's test exercises. Entries are kept as a key-sorted sequence.
- `Wrappers` (wrappers.dfy): `Option` and `Result`.

Two behaviours of the code are worth knowing:

- `weekDay` is `(unixDay + 5) % 7` with Swift's truncating remainder.
  - Day 0 (1970-01-01 UTC, a Thursday) gives 5, which is Friday in the
    numbering the doc comment gives (0 = Sunday).
  - Before day -5 the result is never positive, and it is 0 exactly when
    `unixDay + 5` is a multiple of 7 (day -6 gives -1, day -12 gives 0).
  - The model follows the code on both points. `Dates.WeekDayOfEpoch` and
    `Dates.WeekDayBeforeMinusFive` state them.
- `Errors.==` compares descriptions, so two structurally different errors can
  be equal (`DittoErrors.EqualIsCoarserThanIdentity`). When every message is
  a single line and every wrapped error is itself an `Errors`, it is identity
  (`DittoErrors.DescriptionInjective`).

## Model

| member | source | states |
|---|---|---|
| HexColor.TrimLeading | Sources/Ditto/Extension/Color.swift:97 | the result is a suffix of the input that starts with an alphanumeric (or is empty); everything removed is non-alphanumeric |
| HexColor.TrimTrailing | Sources/Ditto/Extension/Color.swift:97 | the result is a prefix of the input that ends with an alphanumeric (or is empty); everything removed is non-alphanumeric |
| HexColor.Trim | Sources/Ditto/Extension/Color.swift:97 | the trimmed text is a slice of the input with only non-alphanumeric characters before and after it; it is empty exactly when the input holds no alphanumeric, and otherwise both of its ends are alphanumeric |
| HexColor.TrimLeadingPunctuation | Sources/Ditto/Extension/Color.swift:97 | a non-alphanumeric character in front does not change the trim |
| HexColor.TrimTrailingPunctuation | Sources/Ditto/Extension/Color.swift:97 | a non-alphanumeric character at the end does not change the trim |
| HexColor.TrimOfTrimmed | Sources/Ditto/Extension/Color.swift:97 | a text with alphanumeric ends is its own trim |
| HexColor.DigitValue | Sources/Ditto/Extension/Color.swift:99 | a hex digit's value is below 16 |
| HexColor.HexValue | Sources/Ditto/Extension/Color.swift:99 | a run of n hex digits has a value below 16^n |
| HexColor.HexValueConcat | Sources/Ditto/Extension/Color.swift:99 | the value of two concatenated runs is the first shifted left by four bits per digit of the second, plus the second |
| HexColor.HexValuePair | Sources/Ditto/Extension/Color.swift:99 | two digits read as one byte, high digit first |
| HexColor.DigitRun | Sources/Ditto/Extension/Color.swift:99 | the scanner's run is all hex digits and stops at the first non-digit |
| HexColor.ScanHex | Sources/Ditto/Extension/Color.swift:98-99 | the scanned value of an n-character text is below 16^n, so it fits the digit-count switch |
| HexColor.ScanHexOfDigits | Sources/Ditto/Extension/Color.swift:98-99 | a text made only of hex digits scans to its value |
| HexColor.Channels | Sources/Ditto/Extension/Color.swift:100-110 | every layout of the switch gives four channels, none above 255 |
| HexColor.FromHex | Sources/Ditto/Extension/Color.swift:86-118 | `.clear` exactly for nil or empty input; otherwise every channel is at most 255 |
| HexColor.FromHexIgnoresPunctuation | Sources/Ditto/Extension/Color.swift:97 | a leading or trailing non-alphanumeric (such as `#`) does not change the colour of a non-empty input |
| HexColor.WhiteExample | Sources/Ditto/Extension/Color.swift:97-103 | "FFF" and "#FFF" both decode to (255, 255, 255, 255) |
| HexColor.LoneHashExample | Sources/Ditto/Extension/Color.swift:92-109 | "#" is not empty, so it is not `.clear`: it trims to nothing and takes the default tuple |
| HexColor.FromHexOfTrimmed | Sources/Ditto/Extension/Color.swift:97-110 | a trimmed input decodes by its own length and value |
| HexColor.HexValueThree | Sources/Ditto/Extension/Color.swift:99 | three digits have the value 256·d0 + 16·d1 + d2 |
| HexColor.ChannelsThree | Sources/Ditto/Extension/Color.swift:102-103 | the 12-bit layout gives alpha 255 and each nibble times 17 |
| HexColor.FromHexThreeDigits | Sources/Ditto/Extension/Color.swift:102-103 | three hex digits decode to alpha 255 and each channel one digit times 17 |
| HexColor.FromHexThreeCharacters | Sources/Ditto/Extension/Color.swift:101-103 | any input that trims to three characters gets alpha 255 and channels that are multiples of 17 |
| HexColor.ChannelsThreeAny | Sources/Ditto/Extension/Color.swift:102-103 | the 12-bit layout of any value has alpha 255 and channels that are multiples of 17 |
| HexColor.ByteAt | Sources/Ditto/Extension/Color.swift:104-107 | the byte written by a digit pair is below 256 |
| HexColor.HexValueSix | Sources/Ditto/Extension/Color.swift:99 | six digits are three bytes, most significant first |
| HexColor.HexValueEight | Sources/Ditto/Extension/Color.swift:99 | eight digits are four bytes, most significant first |
| HexColor.ChannelsSix | Sources/Ditto/Extension/Color.swift:104-105 | the 24-bit layout takes r, g, b from the three bytes and sets alpha 255 |
| HexColor.ChannelsEight | Sources/Ditto/Extension/Color.swift:106-107 | the 32-bit layout is ARGB: the first byte is alpha |
| HexColor.FromHexSixDigits | Sources/Ditto/Extension/Color.swift:104-105 | six hex digits decode to alpha 255 and r, g, b from the byte pairs in order |
| HexColor.FromHexEightDigits | Sources/Ditto/Extension/Color.swift:106-107 | eight hex digits decode to alpha, r, g, b from the byte pairs in order |
| HexColor.FromHexOtherLength | Sources/Ditto/Extension/Color.swift:108-109 | any other trimmed length gives (a, r, g, b) = (1, 1, 1, 0) |
| Dates.TruncDiv | Sources/Ditto/Extension/Date.swift:204 | Swift's quotient truncates toward zero: it lies within one divisor below (or above, for negatives) the dividend |
| Dates.TruncRem | Sources/Ditto/Extension/Date.swift:82 | Swift's remainder completes the truncated quotient and takes the dividend's sign |
| Dates.Seconds | Sources/Ditto/Extension/Date.swift:203 | `Int(self)` drops the fraction toward zero |
| Dates.Days | Sources/Ditto/Extension/Date.swift:204 | the day count has the sign of the time, and its whole days bracket the seconds count, rounded toward zero |
| Dates.DaysOfNonNegative | Sources/Ditto/Extension/Date.swift:203-204 | from 1970 on, `days * 86400 <= seconds < (days + 1) * 86400` |
| Dates.DaysOfNegative | Sources/Ditto/Extension/Date.swift:203-204 | before 1970 the day count rounds toward zero |
| Dates.WeekDayOfUnixDay | Sources/Ditto/Extension/Date.swift:82 | the weekday is congruent to the day count plus 5 modulo 7, lies in -6...6, is not negative from day -5 on and not positive before it, which fixes it as Swift's remainder |
| Dates.WeekDay | Sources/Ditto/Extension/Date.swift:77-82 | `weekDay` lies in -6...6, and in 0...6 for every time later than six days before 1970 |
| Dates.WeekDayEuclidean | Sources/Ditto/Extension/Date.swift:82 | from day -5 on, the truncating remainder is the mathematical one |
| Dates.WeekDayRange | Sources/Ditto/Extension/Date.swift:79-82 | from day -5 on, the weekday is in 0...6 |
| Dates.WeekDayPeriodic | Sources/Ditto/Extension/Date.swift:82 | from day -5 on, the weekday repeats every seven days |
| Dates.WeekDaySuccessor | Sources/Ditto/Extension/Date.swift:82 | consecutive days step through the week, wrapping from 6 to 0 |
| Dates.WeekDayOfEpoch | Sources/Ditto/Extension/Date.swift:75-82 | day 0 is reported as 5 |
| Dates.WeekDayBeforeMinusFive | Sources/Ditto/Extension/Date.swift:82 | before day -5 the weekday lies in -6...0, is 0 exactly when the day count plus 5 is a multiple of 7, and is the negated remainder of its magnitude |
| Dates.MonthWeeks | Sources/Ditto/Extension/Date.swift:87-92 | the week count is never negative, and at least 1 for a non-empty month from day -5 on |
| Dates.MonthWeeksIsRowCount | Sources/Ditto/Extension/Date.swift:87-92 | for any first day, the week count is the least number of seven-day rows holding the month after its leading blanks |
| Dates.MonthWeeksRange | Sources/Ditto/Extension/Date.swift:87-92 | a month of 28 to 31 days spans 4 to 6 week rows, before 1970 too |
| Dates.RawValue | Sources/Ditto/Extension/Date.swift:182-188 | raw values lie in 0...4, and 0 is exactly `.none` |
| Dates.FromRaw | Sources/Ditto/Extension/Date.swift:190-198 | 1...4 decode to the case with that raw value, every other integer to `.none` |
| Dates.FromRawRawValue | Sources/Ditto/Extension/Date.swift:182-198 | `DateSpan(s.rawValue) == s` for every case |
| Dates.RawValueInjective | Sources/Ditto/Extension/Date.swift:184-188 | distinct cases have distinct raw values |
| Dates.FromRawOutOfRange | Sources/Ditto/Extension/Date.swift:196 | every integer outside 1...4 decodes to `.none` |
| Dates.RawValueFromRaw | Sources/Ditto/Extension/Date.swift:184-198 | decoding then encoding gives back every raw value 0...4 |
| Dates.AddSpan | Sources/Ditto/Extension/Date.swift:113-126 | `add(_ span:)` is nil exactly for `.none` |
| Dates.AddSpanWithFailingCalendar | Sources/Ditto/Extension/Date.swift:117 | when the calendar cannot add, every other span gives back the same date |
| Dates.AddWeekKeepsWeekDay | Sources/Ditto/Extension/Date.swift:116-122 | with a day-counting calendar, `add(.week)` moves seven days and keeps the weekday |
| Hotkeys.IsModifier | Sources/Ditto/Model/Hotkey.swift:259-261 | accepts exactly the ten modifier key codes |
| Hotkeys.BaseModifier | Sources/Ditto/Model/Hotkey.swift:263-280 | a base modifier is a left-hand modifier, caps lock or function, and differs from the code only for the four right-hand keys |
| Hotkeys.BaseModifierDefinedIffModifier | Sources/Ditto/Model/Hotkey.swift:259-280 | `baseModifier` is non-nil exactly for the codes `isModifier` accepts (0x36...0x3F) |
| Hotkeys.BaseModifierIdempotent | Sources/Ditto/Model/Hotkey.swift:259-280 | a base modifier is a modifier, is its own base, and is a left-hand code, caps lock or function |
| Hotkeys.AllKeyBasesComplete | Sources/Ditto/Model/Hotkey.swift:111-115 | `allCases` lists every group |
| Hotkeys.IsPressed | Sources/Ditto/Model/Hotkey.swift:117-128 | a group is down only when some key that is down has the group's left key as its base modifier |
| Hotkeys.IsPressedViaBaseModifier | Sources/Ditto/Model/Hotkey.swift:117-128 | a group is down exactly when a key that is down has the group's left key as its base modifier |
| Hotkeys.FilterListed | Sources/Ditto/Model/Hotkey.swift:91-92 | the filter keeps exactly the groups whose membership in the list matches |
| Hotkeys.PressedGroupsEqualListed | Sources/Ditto/Model/Hotkey.swift:90-107 | the pressed groups equal the listed ones exactly when each group is down iff it is listed |
| Hotkeys.KeyBasePressed | Sources/Ditto/Model/Hotkey.swift:90-107 | true exactly when the set of groups down equals the set of groups listed |
| Hotkeys.Matches | Sources/Ditto/Model/Hotkey.swift:61-63 | a matching hotkey has its key down and every listed group down |
| Hotkeys.HotkeysSubscription | Sources/Ditto/Model/Hotkey.swift:59-70 | the first matching hotkey fires and the event is handled; with no match nothing fires and it is not handled |
| Hotkeys.MatchesIgnoresListOrder | Sources/Ditto/Model/Hotkey.swift:90-107 | the order and repetition of a modifier list do not change whether it matches |
| Layouts.TopSpacer | Sources/Ditto/Structure/Layout.swift:19-26 | no spacer above a view anchored to the top; one above a view anchored to the bottom |
| Layouts.BottomSpacer | Sources/Ditto/Structure/Layout.swift:28-35 | no spacer below a view anchored to the bottom; one below a view anchored to the top |
| Layouts.LeadingSpacer | Sources/Ditto/Structure/Layout.swift:37-44 | no leading spacer for a view anchored to the leading edge; one for a view anchored to the trailing edge |
| Layouts.TrailingSpacer | Sources/Ditto/Structure/Layout.swift:46-53 | no trailing spacer for a view anchored to the trailing edge; one for a view anchored to the leading edge |
| Layouts.CenterHasAllSpacers | Sources/Ditto/Structure/Layout.swift:19-53 | `.center` shows all four spacers |
| Layouts.VerticallyCentred | Sources/Ditto/Structure/Layout.swift:19-35 | both vertical spacers exactly for `.center` and `.verticalCenter` |
| Layouts.HorizontallyCentred | Sources/Ditto/Structure/Layout.swift:37-53 | both horizontal spacers exactly for `.center` and `.horizontalCenter` |
| Layouts.NoSpacerOnAxis | Sources/Ditto/Structure/Layout.swift:19-53 | no vertical spacer exactly for leading, trailing and horizontal centre; no horizontal spacer exactly for top, bottom and vertical centre |
| Layouts.AnchoredLayouts | Sources/Ditto/Structure/Layout.swift:19-53 | a layout anchored to an edge has the spacer on the opposite side only |
| Layouts.FlipsAreInvolutions | Sources/Ditto/Structure/Layout.swift:3-16 | the two reflections of the layouts undo themselves and commute |
| Layouts.MirrorSymmetry | Sources/Ditto/Structure/Layout.swift:19-53 | reflecting top to bottom swaps the vertical spacers and keeps the horizontal ones, and the converse |
| Students.SexString | Sources/Example/Internal/Model/Student.swift:16-25 | every encoding is a lower-case word of at least four letters |
| Students.SexFromString | Sources/Example/Internal/Model/Student.swift:27-36 | the decoded case encodes back to the string, or the string is neither "male" nor "female" and the case is `.others` |
| Students.SexRoundTrip | Sources/Example/Internal/Model/Student.swift:16-36 | `Sex(s.string) == s` for all three cases |
| Students.SexStringInjective | Sources/Example/Internal/Model/Student.swift:16-25 | the three encodings are distinct |
| Students.SexFromOtherString | Sources/Example/Internal/Model/Student.swift:27-35 | every string other than exactly "male" or "female" decodes to `.others` |
| Students.SexFromStringCharacterised | Sources/Example/Internal/Model/Student.swift:27-35 | decoding to s happens exactly for s's encoding, or for any unlisted string when s is `.others` |
| Students.DatatypeValue | Sources/Example/Internal/Repo/SQL/Value.swift:15-17 | the column value decodes back to the case it was written from |
| Students.FromDatatypeValue | Sources/Example/Internal/Repo/SQL/Value.swift:11-13 | the case read encodes back to the column value, or the value is unlisted and the case is `.others` |
| Students.DatatypeValueRoundTrip | Sources/Example/Internal/Repo/SQL/Value.swift:11-17 | the SQLite column conversion round-trips |
| Students.NewStudent | Sources/Example/Internal/Model/Student.swift:3-8 | a student built without an id has id 0 and the given fields |
| DittoErrors.Description | Sources/Ditto/Model/Errors.swift:9-16 | every description starts with "Error: " |
| DittoErrors.DescriptionOfMsg | Sources/Ditto/Model/Errors.swift:11-12 | `msg(m)` reads "Error: " + m |
| DittoErrors.DescriptionOfWrap | Sources/Ditto/Model/Errors.swift:13-14 | `wrap(m, e)` reads "Error: " + m + "\n:: " + the inner error's text |
| DittoErrors.FormatArg | Sources/Ditto/Model/Errors.swift:26-28 | `_arg` starts with "Error: " |
| DittoErrors.FormatSpecifier | Sources/Ditto/Model/Errors.swift:32-34 | `_specifier` starts with "Error: " |
| DittoErrors.FormatArgumentsAreDescription | Sources/Ditto/Model/Errors.swift:25-34 | `_arg` and `_specifier` are the description |
| DittoErrors.Equal | Sources/Ditto/Model/Errors.swift:36-38 | identical errors are always `==` |
| DittoErrors.EqualIsEquivalence | Sources/Ditto/Model/Errors.swift:36-38 | `==` is reflexive, symmetric and transitive |
| DittoErrors.EqualIsCoarserThanIdentity | Sources/Ditto/Model/Errors.swift:9-16 | a message spelling out a nested description equals the wrapped error, and so does a foreign error with the same text |
| DittoErrors.NewlineInDescription | Sources/Ditto/Model/Errors.swift:9-16 | every wrapping description holds a newline, so one without is a plain message; a message's description holds a newline exactly when the message does |
| DittoErrors.DescriptionInjective | Sources/Ditto/Model/Errors.swift:36-38 | when every message is a single line and every wrapped error is itself an `Errors`, equal descriptions mean equal errors |
| Http.LevelRaw | Sources/Ditto/Structure/Http.swift:15-19 | the raw values lie in 0...2 |
| Http.LevelString | Sources/Ditto/Structure/Http.swift:21-30 | every level name is an upper-case word of at least five letters |
| Http.LevelsOrdered | Sources/Ditto/Structure/Http.swift:15-30 | debug < warning < release by raw value, with three distinct names |
| Http.Prints | Sources/Ditto/Structure/Http.swift:54-58 | release messages and every message at debug level print; at release level only release messages print |
| Http.PrintsGate | Sources/Ditto/Structure/Http.swift:54-58 | release messages always print, debug ones only at debug level, warning ones unless the level is release; lowering the level prints more |
| Http.LogLine | Sources/Ditto/Structure/Http.swift:56 | the console line starts with "[", is at least eight characters longer than the message and ends with it |
| Http.MethodRaw | Sources/Ditto/Structure/Http.swift:97-103 | every raw value is an upper-case word of at least three letters |
| Http.MethodRawInjective | Sources/Ditto/Structure/Http.swift:97-103 | distinct methods have distinct raw values |
| Http.Message | Sources/Ditto/Structure/Http.swift:77-86 | every message begins with the method's raw value, ": " and the URL |
| Http.Complete | Sources/Ditto/Structure/Http.swift:162-193 | exactly one of result and error is set; the code is set exactly when there was no transport error and the response was HTTP, and then it is that status code |
| Http.CompleteWithoutResponse | Sources/Ditto/Structure/Http.swift:164-172 | a transport error or a non-HTTP response gives a download error and no code |
| Http.CompleteWithResponse | Sources/Ditto/Structure/Http.swift:174-191 | with an HTTP response the code is kept: no body gives "connection timeout", a body that fails to decode gives a decode error, otherwise the decoded value |
| Http.CompleteForString | Sources/Ditto/Structure/Http.swift:261-290 | the same guards; the body is the UTF-8 text unless `ignoreBody`, when it is empty but the code is still returned |
| Http.CompleteForStringAgrees | Sources/Ditto/Structure/Http.swift:261-290 | the string variant returns the same error and status code as `sendRequest`'s handler for every response: the transport error, "network connection error" or "connection timeout" |
| Http.Gate | Sources/Ditto/Structure/Http.swift:54-58 | the printed lines are never more than the logged messages, and all of them at debug level |
| Http.GateAtRelease | Sources/Ditto/Structure/Http.swift:54-58 | at release level no warning or debug message is printed |
| Http.SendRequestLog | Sources/Ditto/Structure/Http.swift:120-193 | one warning for a URL that does not parse, nothing when the download fails, otherwise three or four lines with the body at debug level; never a release-level line |
| Http.SendRequestForStringLog | Sources/Ditto/Structure/Http.swift:215-290 | the same without the decoding warning: exactly three lines after a download |
| Http.RequestLogsAtLevel | Sources/Ditto/Structure/Http.swift:181-189 | at release level a request prints nothing; at debug level it prints every line it logs |
| Http.HttpState.constructor | Sources/Ditto/Structure/Http.swift:9-13 | the level starts at debug in a debug build and at release otherwise |
| Http.HttpState.SetLogLevel | Sources/Ditto/Structure/Http.swift:43-45 | sets the level and prints nothing |
| Http.HttpState.GetLogLevel | Sources/Ditto/Structure/Http.swift:50-52 | returns the level last set |
| Http.HttpState.Log | Sources/Ditto/Structure/Http.swift:54-58 | appends "[LEVEL] message" exactly when the message's level is at or above the configured one |
| Http.HttpState.Warn | Sources/Ditto/Structure/Http.swift:60-62 | logs at warning level |
| Http.HttpState.DebugLog | Sources/Ditto/Structure/Http.swift:64-66 | logs at debug level |
| Http.HttpState.LogDownload | Sources/Ditto/Structure/Http.swift:181-183 | logs the request, the body length and the body, in that order |
| Http.HttpState.SendRequest | Sources/Ditto/Structure/Http.swift:120-197 | an unparsable URL returns `(nil, nil, .errParseURL)` after one warning; streaming returns an empty triple; otherwise the completion handler's triple, with its log lines |
| Http.HttpState.SendRequestForString | Sources/Ditto/Structure/Http.swift:215-294 | the same for the string variant |
| Preferences.Read | Sources/Ditto/Structure/UserDefaultState.swift:34-36 | the stored object when present and of type `Value`, otherwise the default |
| Preferences.Write | Sources/Ditto/Structure/UserDefaultState.swift:37-43 | nil removes the key, any other value is stored under it; every other key is unchanged |
| Preferences.ReadAfterWrite | Sources/Ditto/Structure/UserDefaultState.swift:34-43 | reading back a write gives the value, or the default for nil |
| Preferences.WriteOtherKey | Sources/Ditto/Structure/UserDefaultState.swift:37-45 | a write does not change what any other key reads |
| Preferences.WriteTwice | Sources/Ditto/Structure/UserDefaultState.swift:37-43 | the later of two writes to a key decides the store |
| Preferences.WritesCommute | Sources/Ditto/Structure/UserDefaultState.swift:37-43 | writes to different keys commute |
| Preferences.UserDefaults.constructor | Sources/Ditto/Structure/UserDefaultState.swift:30 | a new store is empty |
| Preferences.UserDefaults.Set | Sources/Ditto/Structure/UserDefaultState.swift:42 | stores the value under the key |
| Preferences.UserDefaults.RemoveObject | Sources/Ditto/Structure/UserDefaultState.swift:40 | removes the key |
| Preferences.UserDefaults.Object | Sources/Ditto/Structure/UserDefaultState.swift:35 | the stored entry, nil when the key is absent |
| Preferences.UserDefaultState.constructor | Sources/Ditto/Structure/UserDefaultState.swift:27-31 | keeps key, default and container; nothing published yet |
| Preferences.UserDefaultState.NilLiteral | Sources/Ditto/Structure/UserDefaultState.swift:54-56 | the default is nil unless one is given; key and container are kept |
| Preferences.UserDefaultState.WrappedValue | Sources/Ditto/Structure/UserDefaultState.swift:34-36 | reads the container's entry under the key, with the default |
| Preferences.UserDefaultState.SetWrappedValue | Sources/Ditto/Structure/UserDefaultState.swift:37-45 | the container changes only under the key (removed for nil, stored otherwise), the new value is published once, and a read returns it (the default for nil) |
| Preferences.UserDefaultState.ProjectedValue | Sources/Ditto/Structure/UserDefaultState.swift:48-50 | the values published so far |
| Preferences.SharedContainer | Sources/Ditto/Structure/UserDefaultState.swift:30-45 | a second wrapper on the same container sees the write under the same key and is unaffected under another |
| Collections.Range | Tests/DittoTests/DittoTests.swift:15 | `lo ..< hi` in ascending order, as `Array(1...10)` is `Range(1, 11)` |
| Collections.Indexes | Sources/Ditto/Extension/Array.swift:4 | `0 ..< count`: every subscript once, in order |
| Collections.ForEach | Sources/Ditto/Extension/Array.swift:6-10 | the body is called once per index in ascending order with `self[i]`, until the first throw, whose error is returned |
| Collections.ForEachEmpty | Sources/Ditto/Extension/Array.swift:4-7 | on an empty array the body is never called |
| Collections.Appended | Sources/Ditto/Extension/RangeReplaceableCollection.swift:4-8 | the copy is the collection followed by the element |
| Collections.AppendedContentsOf | Sources/Ditto/Extension/RangeReplaceableCollection.swift:10-14 | the copy is the collection followed by the elements in order |
| Collections.AppendedAgree | Sources/Ditto/Extension/RangeReplaceableCollection.swift:4-14 | `appended(x) == appended(contentsOf: [x])`, and appending nothing gives an equal copy |
| OrderedTree.InsertItem | Tests/DittoTests/DittoTests.swift:15-18 | insertion adds at most one entry |
| OrderedTree.InsertItemMembers | Tests/DittoTests/DittoTests.swift:15-18 | after insertion the new entry is present, nothing else is new, and every other key keeps its entry |
| OrderedTree.InsertItemSorted | Tests/DittoTests/DittoTests.swift:23-32 | insertion keeps the keys strictly increasing |
| OrderedTree.InsertItemLargest | Tests/DittoTests/DittoTests.swift:15-18 | a key above every present key goes at the end |
| OrderedTree.InsertItemAt | Tests/DittoTests/DittoTests.swift:15-18 | insertion replaces the entry of an equal key, or goes before the first larger key |
| OrderedTree.AVLTree.constructor | Tests/DittoTests/DittoTests.swift:13 | a new tree is empty |
| OrderedTree.AVLTree.Insert | Tests/DittoTests/DittoTests.swift:15-18 | insertion (the value defaults to nil), keeping the entries sorted |
| OrderedTree.AVLTree.Ascend | Tests/DittoTests/DittoTests.swift:23-25 | visits every entry once with strictly increasing keys |
| OrderedTree.AVLTree.Descend | Tests/DittoTests/DittoTests.swift:27-29 | visits the entries in exactly the reverse order, with strictly decreasing keys |
| OrderedTree.TestAVLTree | Tests/DittoTests/DittoTests.swift:12-33 | after inserting 1...10, ascend gives 1...10 and descend gives 10...1 |

## Left out

- Color.swift: only ASCII letters and digits count as alphanumeric, while Foundation's set is Unicode-wide. Lengths count characters, not grapheme clusters.
- HexColor.ScanHex: the scanner's value is an unbounded integer. Overflow past 64 bits is not modelled; it cannot reach the 3-, 6- and 8-digit layouts.
- Color.swift: the division of each channel by 255 into a `Double` and the `.sRGB` colour construction are floating point, so they are left out. `hex`, `components`, `Codable` and the opacity constants are left out for the same reason.
- Dates.Seconds: `TimeInterval` is a real number. `Int(self)` trapping on values outside 64 bits is not modelled.
- Date.swift: `monthWeeks` gets the month's length and first unix day as inputs. `monthFirst`, `between` and `date(byAdding:)` depend on the calendar and time zone and are not modelled; `add(_:_:)` calls a given calendar function.
- Date.swift: the component initialisers, `replace`, `add(year:…)`, `monthDays`, `isToday`, `string`, `init?(from:_:_:)` and the layout constants depend on Foundation's formatters and calendar, so they are left out.
- Hotkey.swift: `CGKeyCode.isPressed` reads the keyboard; the set of keys down is an input. The action closure is represented by the index of the hotkey that fired. The view modifiers and the window plumbing are UI.
- Layout.swift: the `push` view body is UI. `Layouts.FlipVertical` and `Layouts.FlipHorizontal` are reflections of the model, not members of the source.
- Students: `Student.id` is a 64-bit integer and `age` an `Int`; bounds are not modelled. The SQLite `declaredDatatype` is a constant of the library and is left out.
- DittoErrors.Equal: descriptions are compared code point by code point. Swift's `String ==` uses Unicode canonical equivalence, so `msg("\u{E9}")` and `msg("e\u{301}")` are `==` in Swift but not `Equal` here.
- DittoErrors: a wrapped error that is not an `Errors` is known only by the text it interpolates to. `localizedStringResource` is a framework type and is left out.
- Http: the `URLSession` transfer, the semaphore wait, the 30-second timeout, the request-modifying `action` and the streaming `Task` (which also resets the level to release) are network I/O and concurrency. The session's answer is the `Response` input; the URL parser, the JSON decoder and the UTF-8 decoder are inputs too.
- Http.HttpState.SendRequest: with a streaming publisher only the immediate empty triple is modelled, not the lines sent on the publisher later.
- Preferences: one container holds values of one `Value` type; an object of another type is the `Untyped` entry. `UserDefaults` persistence and its refusal of non-property-list values are not modelled. The publisher is the list of every value sent; subscription timing is not modelled.
- Preferences.Read: an absent key or an object of another type reads as the default. For an optional `Value`, Swift's dynamic cast of a missing object (`nil as? Value`) may succeed as nil instead, so the getter may return nil where the model returns a non-nil default. This edge case of Swift's casting rules is not modelled.
- Preferences: the string, boolean, integer and float literal initialisers only forward to the memberwise one, so they are not modelled separately.
- Collections.ForEach: the body's own effects are not modelled; the method returns the calls the body received and the error that stopped the loop.
- OrderedTree: the `AVLTree` implementation is not part of this model; only the behaviour its test relies on is modelled, on a sorted sequence. Rotations, heights and balance are not modelled. Keys are `int`, while the tree is generic in its key type. Inserting a key already present is taken to replace its value. The traversal callbacks are represented by the list of entries they receive.
