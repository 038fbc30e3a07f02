# Not-A-Robot.design: visitor tracker and challenge state, in Dafny

This project models the logic of the not-a-robot design site that has real
behaviour:

- **The visitor tracker.** It comes in two copies: the `VisitorService` class and the
  module-level server actions. It picks a client address and a user agent from
  the request headers, joins them with `-`, and folds them into a signed 32-bit
  `31 * h + c` hash over UTF-16 code units. The decimal text of that hash is the
  visitor fingerprint. The tracker loads the visitor record from a counter file,
  with defaults for every failure. It adds one visit and the fingerprint to the
  record and writes the record back. It reports `{totalVisits, uniqueVisitors}`:
  `{1, 1}` when an update cannot be written, and `{0, 0}` when the count is read
  from a missing or unreadable file.
- **The Konami-code hook.** A window of the last ten keys that fires, and
  empties, on an exact match of up, up, down, down, left, right, left, right, b, a.
- **The completion context.** An append-if-absent list of step numbers.
- **The focus challenge.**
  - The first click on the input schedules twelve numbered popups, and a timer shows each one.
  - Popups are closed by id, or all together with Escape.
  - A completion test runs over the popups on screen.
- **The credentials screen.** Two independent field checks, each with its own error message.
- **The challenge flow.** Five screens. Each of the first four has an `onComplete` that moves to the next; the final screen has none. There is also
  the Konami shortcut that skips a screen and shows an indicator.

Modules, one per concern:

| file | module | what it holds |
|---|---|---|
| `wrappers.dfy` | `Wrappers` | `Option` |
| `sequences.dfy` | `Sequences` | lists without repeats and the split of a list at its last entry |
| `number_text.dfy` | `NumberText` | `Number.toString()` for integers and the parser that inverts it |
| `fingerprint.dfy` | `Fingerprint` | header selection, UTF-16 code units, ToInt32, the hash and its injectivity lemmas |
| `visitor_store.dfy` | `VisitorStore` | the record, its stored form, the file as a slot, the JavaScript `Set` as an insertion-ordered list |
| `visitor_service.dfy` | `VisitorTracker` | class `VisitorService` |
| `actions.dfy` | `Actions` | class `CounterFile`: the server-action copy |
| `konami.dfy` | `Konami` | the key window |
| `captcha_context.dfy` | `CaptchaContext` | the completed-steps list |
| `modal_attack.dfy` | `ModalAttack` | the popups of the focus challenge |
| `input_hell.dfy` | `InputHell` | class `CredentialsForm` |
| `captcha_challenge.dfy` | `CaptchaChallenge` | the step sequencer |

Modelling conventions:

- **The counter file.** It is a `Slot`: `Missing`, `Unparsable` or
  `Stored(doc)`, where `doc` is the parsed object with each field optional.
  A `writable` flag says whether `fs.writeFile` succeeds.
- **The clock.** `new Date().toISOString()` is the parameter `now`.
- **Bitwise operators.** `hash << 5` and `hash & hash` are written with an
  explicit ToInt32 (`Wrap32`). A lemma shows that the resulting step is
  `Wrap32(31 * h + c)`.
- **Stateful objects.** The service, the counter file and the credentials form
  are classes whose methods change their fields.
- **React state.** Hook and component state is modelled as values with one
  function per event handler.

## Model

| member | source | states |
|---|---|---|
| `NumberText.NatDigits` | lib/visitor-service.ts:99 | the digits of a natural number are non-empty, all decimal digits, and have no leading zero |
| `NumberText.Decimal` | lib/visitor-service.ts:99 | `toString()` of an integer below 10^21 in magnitude (the hash is a signed 32-bit value) is non-empty, made of digits after an optional `-`, and starts with `-` exactly when the number is negative |
| `NumberText.NatDigitsRoundTrip` | lib/visitor-service.ts:99 | reading back the digits of `n` gives `n` |
| `NumberText.DecimalRoundTrip` | lib/visitor-service.ts:99 | parsing the decimal text of any integer gives that integer back |
| `NumberText.DecimalInjective` | lib/visitor-service.ts:99 | distinct integers have distinct decimal texts |
| `Fingerprint.BeforeFirstComma` | lib/visitor-service.ts:88 | `split(',')[0]` is a prefix without a comma, followed in the input by a comma whenever it is shorter |
| `Fingerprint.ClientAddress` | lib/visitor-service.ts:87-88 | the address is the first entry of a non-empty x-forwarded-for, else a non-empty x-real-ip, else `"unknown"` |
| `Fingerprint.UserAgent` | lib/visitor-service.ts:89 | a missing or empty user-agent becomes `"unknown"`; the result is never empty |
| `Fingerprint.Combined` | lib/visitor-service.ts:92 | the hashed text is the address, `-` and the agent; `VisitorTracker.VisitorService.GenerateVisitorId` shows the loop hashes exactly this text |
| `Fingerprint.CharUnits` | lib/visitor-service.ts:95 | a character is one or two UTF-16 code units, and a character below U+10000 is the unit of its own value |
| `Fingerprint.Utf16` | lib/visitor-service.ts:94-95 | the `charCodeAt` sequence has between one and two code units per character, each in 0..65535 |
| `Fingerprint.Utf16OfBmp` | lib/visitor-service.ts:94-95 | for text below U+10000, the i-th code unit is the i-th character's value |
| `Fingerprint.Wrap32` | lib/visitor-service.ts:97 | ToInt32 gives a signed 32-bit value congruent to its argument modulo 2^32 |
| `Fingerprint.ShiftStep` | lib/visitor-service.ts:96-97 | one loop pass as written, `Wrap32(Wrap32(h * 32) - h + c)`; `Fingerprint.ShiftStepIsHashStep` proves it equals `HashStep` |
| `Fingerprint.HashStep` | lib/visitor-service.ts:96-97 | the step `Wrap32(31 * h + c)`; `HashStepInjectiveInHash` and `HashStepInjectiveInUnit` prove it separates distinct hashes and distinct code units |
| `Fingerprint.Wrap32SameIff` | lib/visitor-service.ts:96-97 | two numbers have the same ToInt32 exactly when they differ by a multiple of 2^32 |
| `Fingerprint.ShiftStepIsHashStep` | lib/visitor-service.ts:96-97 | `((h << 5) - h) + c` followed by `& hash` is `Wrap32(31 * h + c)` |
| `Fingerprint.HashOf` | lib/visitor-service.ts:93-98 | the hash, from 0 and one step per code unit, is always a signed 32-bit integer |
| `Fingerprint.HashOfNextPrefix` | lib/visitor-service.ts:94-98 | one more loop iteration is one shift step on the hash of the prefix so far |
| `Fingerprint.VisitorId` | lib/visitor-service.ts:92-99 | the fingerprint is the decimal text of the hash of the joined text, and depends on the three headers only; `VisitorIdIsInt32Text` and `SingleCharacterChangeSeparates` carry its properties |
| `Fingerprint.OddFactorCancels` | lib/visitor-service.ts:96 | 2^32 divides `31 * d` only if it divides `d` |
| `Fingerprint.HashStepInjectiveInHash` | lib/visitor-service.ts:96-97 | the same code unit applied to two distinct 32-bit hashes gives distinct hashes |
| `Fingerprint.HashStepInjectiveInUnit` | lib/visitor-service.ts:96-97 | two distinct code units applied to the same hash give distinct hashes |
| `Fingerprint.SingleSubstitutionChangesHash` | lib/visitor-service.ts:93-98 | two code-unit sequences of equal length that differ in exactly one position have different hashes |
| `Fingerprint.VisitorIdIsInt32Text` | lib/visitor-service.ts:93-99 | the fingerprint is the decimal text of a value in [-2^31, 2^31) and parses back to the hash |
| `Fingerprint.SingleCharacterChangeSeparates` | lib/visitor-service.ts:86-99 | two requests whose joined texts (below U+10000, of equal length) differ in one character get different fingerprints |
| `VisitorStore.SetAdd` | lib/visitor-service.ts:115 | `set.add(x)` keeps the set duplicate-free, contains `x`, keeps the old elements in order as a prefix, and grows by one exactly when `x` is new |
| `VisitorStore.SetAddElements` | lib/visitor-service.ts:115 | after `add(x)` the set is the old elements plus `x` |
| `Sequences.SplitLast` | lib/visitor-service.ts:41 | dropping the last entry of a duplicate-free list leaves a duplicate-free list that does not contain that entry |
| `VisitorStore.SetOf` | lib/visitor-service.ts:41 | `new Set(list)` has no duplicates and is the list itself when the list has none |
| `VisitorStore.SetOfElements` | lib/visitor-service.ts:41 | `new Set(list)` holds exactly the list's entries |
| `VisitorStore.DistinctSize` | lib/visitor-service.ts:79 | for a list without repeats, the size of the set is the number of its elements |
| `VisitorStore.Serialize` | lib/visitor-service.ts:53-58 | the serialisable form holds the counter, the set as a list in insertion order, and the timestamp |
| `VisitorStore.Deserialize` | lib/visitor-service.ts:38-43 | a falsy counter reads as 0; a missing list reads as the empty set; a missing or empty timestamp reads as `now`; the set is duplicate-free |
| `VisitorStore.DeserializeElements` | lib/visitor-service.ts:41 | the set read holds exactly the entries of the stored list |
| `VisitorStore.DuplicatesCollapse` | lib/visitor-service.ts:41 | `[x, x, x]` reads as the one-element set `{x}` |
| `VisitorStore.RoundTrip` | lib/visitor-service.ts:37-59 | a record written and read back keeps its counter, its set in order, and a non-empty timestamp |
| `VisitorStore.Visit` | lib/visitor-service.ts:107-118 | a visit adds exactly one to the counter, keeps the old set as a prefix, keeps it duplicate-free, and stamps `now` |
| `VisitorStore.VisitByFields` | lib/visitor-service.ts:110-118 | a record updated field by field, in place as the source does, equals the record after the visit |
| `VisitorStore.VisitElements` | lib/visitor-service.ts:113-116 | a visit adds exactly the request's fingerprint, if any, to the set |
| `VisitorStore.VisitAddsAtMostOne` | lib/visitor-service.ts:113-116 | the set grows by one exactly when the fingerprint is new, and otherwise keeps its size |
| `VisitorStore.SeenSplit` | lib/visitor-service.ts:113-116 | the fingerprints of a run of visits are those of its earlier visits plus that of its last |
| `VisitorStore.VisitAllCounts` | lib/visitor-service.ts:105-122 | after N visits the counter has grown by N, the set is the old fingerprints plus the new ones, and the set stays no larger than the counter when that held before |
| `VisitorStore.RepeatVisitCountsOnce` | lib/visitor-service.ts:113-116 | a returning fingerprint does not grow the set again |
| `VisitorStore.TwoNewVisitorsCountTwice` | lib/visitor-service.ts:113-116 | two distinct new fingerprints grow the set by two |
| `VisitorTracker.VisitorService.constructor` | lib/visitor-service.ts:28-30 | the service is bound to its counter file |
| `VisitorTracker.VisitorService.ReadVisitorData` | lib/visitor-service.ts:35-48 | reading never fails; a missing or unparsable file gives the default `{0, empty set, now}`; a parsed object goes through the field defaults |
| `VisitorTracker.VisitorService.WriteVisitorData` | lib/visitor-service.ts:53-60 | a successful write replaces the file with the serialised record, which then reads back unchanged; a failed write changes nothing |
| `VisitorTracker.VisitorService.GetDefaultVisitorData` | lib/visitor-service.ts:65-71 | the default record has no visits, no visitors, and the current time |
| `VisitorTracker.VisitorService.ToStats` | lib/visitor-service.ts:76-81 | the statistics are the counter and the number of distinct fingerprints |
| `VisitorTracker.VisitorService.GenerateVisitorId` | lib/visitor-service.ts:86-100 | the shift-and-mask loop computes the fingerprint of the request's headers, so equal headers give the same id |
| `VisitorTracker.VisitorService.VisitorIdOf` | lib/visitor-service.ts:113-114 | a visit with a request adds that request's fingerprint, and a visit without one adds none |
| `VisitorTracker.VisitorService.IncrementVisitorCount` | lib/visitor-service.ts:105-131 | with a writable file, the file holds the visited record and the result is its statistics; otherwise the file is unchanged and the result is exactly {1, 1} |
| `VisitorTracker.VisitorService.GetVisitorCount` | lib/visitor-service.ts:136-147 | reports the statistics of the stored record without changing the file; a missing or corrupt file reports {0, 0} |
| `VisitorTracker.FingerprintHasNoLetters` | lib/visitor-service.ts:99 | no text containing a lower-case letter is a fingerprint |
| `VisitorTracker.FirstVisitWithoutHeaders` | lib/visitor-service.ts:105-122 | a first visit without a request to an empty file reports {1, 0} |
| `VisitorTracker.VisitToExistingRecord` | __tests__/visitor-service.test.ts:122-146 | a file with 10 visits and the fingerprint "existing-visitor", visited by any request, reports {11, 2} |
| `Actions.CounterFile.constructor` | app/actions.ts:6 | the counter file starts with the given content and writability |
| `Actions.CounterFile.ReadVisitorData` | app/actions.ts:15-32 | reading never fails; a missing or corrupt file gives the inline default `{0, empty set, now}`; a parsed object goes through the field defaults |
| `Actions.CounterFile.WriteVisitorData` | app/actions.ts:35-42 | a successful write replaces the file with the serialised record, which reads back unchanged; a failed write changes nothing |
| `Actions.CounterFile.GenerateVisitorId` | app/actions.ts:45-59 | the duplicate loop computes the same fingerprint as the service for every request |
| `Actions.CounterFile.IncrementVisitorCount` | app/actions.ts:61-90 | with a writable file it persists the visited record and returns its `{total, set size}`; any failure returns exactly {1, 1} and leaves the file alone |
| `Actions.CounterFile.GetVisitorCount` | app/actions.ts:92-106 | returns `{total, set size}` of the stored record and changes nothing; an unreadable file gives {0, 0} |
| `Konami.KonamiCode` | hooks/use-konami-code.ts:6-17 | the ten keys up, up, down, down, left, right, left, right, `b`, `a`; `OnlyLastKeyIsA` and `TypingTheCodeFiresOnce` state what follows from its shape |
| `Konami.LastN` | hooks/use-konami-code.ts:31 | for `n > 0`, `slice(-n)` keeps the last `min(n, length)` entries |
| `Konami.NormalizeKey` | hooks/use-konami-code.ts:25 | the normalisation is the identity: every key is kept as typed |
| `Konami.EndsWithCode` | hooks/use-konami-code.ts:28-35 | the last ten of the buffered keys followed by the new key spell the code; `Konami.KeyHandler` fires exactly when this holds |
| `Konami.KeyHandler` | hooks/use-konami-code.ts:22-45 | it fires exactly when the window, with the new key, spells the code; firing empties the buffer and happens only on "a"; otherwise the buffer is the last ten keys; it never fires with fewer than ten keys |
| `Konami.UpperCaseBNeverMatches` | hooks/use-konami-code.ts:25-35 | keys are compared case-sensitively: a "B" where the code has "b" does not fire |
| `Konami.LastNAppend` | hooks/use-konami-code.ts:28-31 | taking the last ten after appending to the last ten is taking the last ten of the whole |
| `Konami.SuffixAppend` | hooks/use-konami-code.ts:28-31 | the buffer stays a suffix of what was typed when a key is appended and the buffer is cut to ten |
| `Konami.KeyHandlerKeepsRecentKeys` | hooks/use-konami-code.ts:28-32 | one key press keeps the buffer a suffix of the typed keys, and keeps it exactly the last ten when nothing fires |
| `Konami.RunKeepsRecentKeys` | hooks/use-konami-code.ts:28-39 | over any run of presses the buffer holds at most ten keys, is a suffix of everything typed, and is exactly the last ten until the first fire |
| `Konami.OnlyLastKeyIsA` | hooks/use-konami-code.ts:6-17 | "a" occurs in the code only as its last key |
| `Konami.CodePrefixDoesNotFire` | hooks/use-konami-code.ts:35-37 | typing a strict prefix of the code never fires |
| `Konami.WindowEndsWithPrefix` | hooks/use-konami-code.ts:28-31 | after the first nine keys of the code, the buffer ends with those nine keys |
| `Konami.FinalKeyFires` | hooks/use-konami-code.ts:35-41 | a buffer ending with the first nine keys fires on "a" and empties |
| `Konami.TypingTheCodeFiresOnce` | hooks/use-konami-code.ts:22-45 | typing the code fires exactly once and leaves the buffer empty, whatever the buffer held before |
| `CaptchaContext.InitialSteps` | components/captcha-context.tsx:16 | the provider starts with no completed step; `NothingCompletedInitially` states that no step counts as completed |
| `CaptchaContext.CompleteStep` | components/captcha-context.tsx:18-22 | the step is then completed; an already completed step leaves the list unchanged; a new step is appended with the old order kept; other steps keep their status |
| `CaptchaContext.IsStepCompleted` | components/captcha-context.tsx:24-26 | a step is completed when it is in the list; `CompleteStep` and `CompletionHistory` state how completions change the answer |
| `CaptchaContext.CompleteStepKeepsDistinct` | components/captcha-context.tsx:19-20 | completing a step never lists a step twice |
| `CaptchaContext.NothingCompletedInitially` | components/captcha-context.tsx:16 | no step is completed at the start |
| `CaptchaContext.CompletionHistory` | components/captcha-context.tsx:16-26 | after any run of completions the list has no duplicates, and a step is completed exactly when it was completed at some point |
| `CaptchaContext.CompleteFresh` | components/captcha-context.tsx:19-20 | completing a step that is not yet listed appends it |
| `CaptchaContext.CompletionOrder` | components/captcha-context.tsx:16-22 | completing distinct steps lists them in the order they were completed |
| `ModalAttack.BaseModals` | components/screens/modal-attack.tsx:30-52 | the four base popups, cookie, GDPR, Figma and newsletter, with their titles and texts; `InitialTitles` and `InitialIds` state how the twelve popups are built from them |
| `ModalAttack.BuildModal` | components/screens/modal-attack.tsx:55-61 | popup `i` of round `r` has id `4r + i + 1`; it copies its content and type, starts open, and is titled with ` (r+1)` from the second round on |
| `ModalAttack.RoundModals` | components/screens/modal-attack.tsx:55-61 | one round is the four base popups built in order |
| `ModalAttack.Rounds` | components/screens/modal-attack.tsx:54-62 | the popups of the first `n` rounds, round after round; `ModalAttack.RoundsShape` gives the k-th popup of the list |
| `ModalAttack.RoundsShape` | components/screens/modal-attack.tsx:54-62 | `n` rounds are `4n` popups, the k-th built from base popup `k % 4` in round `k / 4` |
| `ModalAttack.InitialModals` | components/screens/modal-attack.tsx:54-62 | the three rounds of the four base popups that the click schedules; `InitialModalsShape`, `InitialIds` and `InitialTitles` give each popup by index |
| `ModalAttack.InitialModalsShape` | components/screens/modal-attack.tsx:30-62 | the click builds twelve popups, the k-th from base popup `k % 4` in round `k / 4` |
| `ModalAttack.InitialIds` | components/screens/modal-attack.tsx:54-62 | the ids are 1..12 in list order, so they are distinct and exactly 1..12; each popup copies its base's content and type and starts open |
| `ModalAttack.InitialTitles` | components/screens/modal-attack.tsx:57 | round one keeps the base titles, e.g. the fifth popup is "Cookie Preferences (2)" and the last "Join Our Newsletter (3)" |
| `ModalAttack.HandleInputClick` | components/screens/modal-attack.tsx:25-71 | the first click schedules the twelve popups; later clicks change nothing |
| `ModalAttack.TimerFires` | components/screens/modal-attack.tsx:65-69 | a timer appends the next scheduled popup to those on screen |
| `ModalAttack.CloseModal` | components/screens/modal-attack.tsx:74-76 | closing an id keeps the list length and closes exactly the popups with that id, leaving every other one as it was |
| `ModalAttack.CloseUnknownId` | components/screens/modal-attack.tsx:75 | closing an id that no popup has changes nothing |
| `ModalAttack.CloseModalIdempotent` | components/screens/modal-attack.tsx:75 | closing twice is closing once |
| `ModalAttack.AnyOpen` | components/screens/modal-attack.tsx:92 | some popup on screen is still open; `ModalAttack.KeyDown` lets Escape act only when this holds |
| `ModalAttack.CloseAll` | components/screens/modal-attack.tsx:93 | the Escape update closes every popup and changes nothing else |
| `ModalAttack.Close` | components/screens/modal-attack.tsx:156-163 | the close and action buttons close their popup's id and change nothing else |
| `ModalAttack.KeyDown` | components/screens/modal-attack.tsx:91-95 | Escape closes all popups when one is open; any other key, or nothing open, changes nothing |
| `ModalAttack.EscapeClosesEverything` | components/screens/modal-attack.tsx:92-94 | after Escape no popup on screen is open |
| `ModalAttack.ActionLabel` | components/screens/modal-attack.tsx:164-170 | cookie reads "Accept All", gdpr "I Agree", figma "Maybe Later", newsletter "Subscribe", and each label belongs to exactly one type |
| `ModalAttack.Start` | components/screens/modal-attack.tsx:20-21 | no popup shown, none scheduled, input not clicked; `StartIsValid` states it satisfies the invariant |
| `ModalAttack.Valid` | components/screens/modal-attack.tsx:25-71 | the invariant: before the click nothing is shown or scheduled; after it, the shown popups then the scheduled ones are the twelve popups in order, the shown ones differing only in being closed; `StartIsValid` and the four `…PreservesValid` lemmas show every event keeps it |
| `ModalAttack.StartIsValid` | components/screens/modal-attack.tsx:20-21 | the screen starts with nothing shown or scheduled |
| `ModalAttack.ClickPreservesValid` | components/screens/modal-attack.tsx:25-71 | a click keeps the shown and scheduled popups, together, equal to the twelve popups in order |
| `ModalAttack.TimerPreservesValid` | components/screens/modal-attack.tsx:65-69 | a timer keeps that invariant |
| `ModalAttack.ClosePreservesValid` | components/screens/modal-attack.tsx:74-76 | closing keeps it |
| `ModalAttack.KeyDownPreservesValid` | components/screens/modal-attack.tsx:91-95 | Escape keeps it |
| `ModalAttack.TimersShowQueueInOrder` | components/screens/modal-attack.tsx:65-69 | with a queue scheduled, `n` timers show the first `n` popups of that queue in order |
| `ModalAttack.QueueStep` | components/screens/modal-attack.tsx:67 | moving the next popup from the queue to the screen advances both by one |
| `ModalAttack.TimersShowPopupsInOrder` | components/screens/modal-attack.tsx:25-69 | after the click, `n` timers show the first `n` popups, with the rest still scheduled |
| `ModalAttack.AllClosed` | components/screens/modal-attack.tsx:80 | the test as written: input clicked, some popup on screen, every popup on screen closed; `AllClosedMeansShownPopupsClosed` states what it means in reachable states |
| `ModalAttack.ShownClosedIff` | components/screens/modal-attack.tsx:80 | in a list numbered in order, every popup is closed exactly when each id from 1 to its length belongs to a closed popup |
| `ModalAttack.AllClosedMeansShownPopupsClosed` | components/screens/modal-attack.tsx:80 | in every reachable state the test as written holds exactly when the input was clicked, some popup has appeared, and the popups shown so far (ids 1 to their number) are all closed; the popups still scheduled are not looked at |
| `ModalAttack.EarlyCompletion` | components/screens/modal-attack.tsx:80-85 | the test as written passes, and the effect records step 4, after the first popup is shown and closed, with eleven popups still scheduled |
| `ModalAttack.AllDismissed` | components/screens/modal-attack.tsx:80 | the corrected completion test: the test as written and no popup still scheduled; `AllDismissedMeansEveryPopupClosed` states that in reachable states it holds iff all twelve popups were shown and closed |
| `ModalAttack.EveryIdClosedIff` | components/screens/modal-attack.tsx:80 | a list numbered in order is twelve popups, all closed, exactly when each of the ids 1..12 is a closed popup of it |
| `ModalAttack.AllDismissedMeansEveryPopupClosed` | components/screens/modal-attack.tsx:80 | in every reachable state, the intended test holds exactly when the input was clicked and each of the popups 1..12 has been shown and closed |
| `ModalAttack.EscapeCompletes` | components/screens/modal-attack.tsx:92-94 | once every popup has appeared, Escape completes the challenge |
| `ModalAttack.CloseEachCloses` | components/screens/modal-attack.tsx:74-76 | closing a sequence of ids closes exactly the popups whose ids are among them and leaves the rest of the state alone |
| `ModalAttack.ClosingNumberedCompletes` | components/screens/modal-attack.tsx:80 | when every popup is on screen, closing ids that include 1..12 makes the intended test hold |
| `ModalAttack.ClosingEveryIdCompletes` | components/screens/modal-attack.tsx:25-80 | after the click and all twelve timers, closing the ids 1..12 in any order, with repeats, completes the challenge |
| `ModalAttack.CompletionEffect` | components/screens/modal-attack.tsx:80-85 | the effect as written records step 4 exactly when the test as written holds or step 4 was already recorded; no other step changes |
| `ModalAttack.CompletionEffectIntended` | components/screens/modal-attack.tsx:80-85 | the corrected effect records step 4 exactly when the intended test holds or step 4 was already recorded; no other step changes |
| `ModalAttack.IntendedEffectNeedsEveryPopup` | components/screens/modal-attack.tsx:80-85 | in a reachable state with step 4 not yet recorded, the corrected effect records it exactly when the input was clicked and each of the popups 1..12 has been shown and closed |
| `InputHell.LowerChar` | components/screens/input-hell.tsx:31 | lower-casing maps `A`..`Z` to `a`..`z` and keeps every other character |
| `InputHell.ToLower` | components/screens/input-hell.tsx:31 | `toLowerCase()` keeps the length and lower-cases character by character |
| `InputHell.EndsWith` | components/screens/input-hell.tsx:23 | `endsWith`: the text finishes with the suffix; `EmailValidIff` states the email check accepts exactly some text followed by the domain |
| `InputHell.Includes` | components/screens/input-hell.tsx:31 | `includes`: the needle occurs at some position of the text; `PortfolioWithNeedlePasses` states any text with the needle in some mix of cases passes |
| `InputHell.EmailValid` | components/screens/input-hell.tsx:23 | the email check is `endsWith("@dribbble.io")`; `EmailValidIff` and `EmailIsCaseSensitive` state what it accepts |
| `InputHell.PortfolioValid` | components/screens/input-hell.tsx:31 | the portfolio check is "the lower-case form contains `comic-sans`"; `PortfolioIgnoresCase` and `PortfolioWithNeedlePasses` state what it accepts |
| `InputHell.EmailValidIff` | components/screens/input-hell.tsx:23 | an email passes exactly when it is some text followed by "@dribbble.io" |
| `InputHell.EmailIsCaseSensitive` | components/screens/input-hell.tsx:23 | "me@dribbble.io" passes and "me@Dribbble.io" fails |
| `InputHell.ToLowerIdempotent` | components/screens/input-hell.tsx:31 | lower-casing twice is lower-casing once |
| `InputHell.PortfolioIgnoresCase` | components/screens/input-hell.tsx:31 | an address passes exactly when its lower-case form passes |
| `InputHell.PortfolioWithNeedlePasses` | components/screens/input-hell.tsx:31 | any address containing "comic-sans", in any mix of cases, passes |
| `InputHell.CapitalisedNeedlePasses` | components/screens/input-hell.tsx:31 | "https://Comic-Sans.design" passes |
| `InputHell.CredentialsForm.constructor` | components/screens/input-hell.tsx:13-16 | both fields and both errors start empty |
| `InputHell.CredentialsForm.SetEmail` | components/screens/input-hell.tsx:80 | the change handler stores the typed email |
| `InputHell.CredentialsForm.SetPortfolio` | components/screens/input-hell.tsx:99 | the change handler stores the typed address |
| `InputHell.CredentialsForm.ValidateForm` | components/screens/input-hell.tsx:19-42 | checks both fields; a failing field gets its exact message and a passing one an empty error; step 5 is completed, and completion reported, exactly when both pass |
| `InputHell.SubmitCompletesStepFive` | components/screens/input-hell.tsx:38-41 | after a submit, step 5 is completed exactly when it was before or both checks passed; no other step changes |
| `CaptchaChallenge.Steps` | components/captcha-challenge.tsx:17-23 | the five screens in the order they are shown; `InitialFlowIsValid` and `CompletionTarget` state its length and which screen hands over to which |
| `CaptchaChallenge.InitialFlow` | components/captcha-challenge.tsx:14-15 | the flow starts on screen 0 with the indicator hidden; `InitialFlowIsValid` states it is a valid flow on the intro screen |
| `CaptchaChallenge.InitialFlowIsValid` | components/captcha-challenge.tsx:14-23 | the flow has five screens and starts on the first, with the indicator hidden |
| `CaptchaChallenge.CompletionTarget` | components/captcha-challenge.tsx:17-22 | the screens at indices 0..3 move to 1..4 when they complete, and the final screen has no handler |
| `CaptchaChallenge.CompleteScreen` | components/captcha-challenge.tsx:17-21 | a screen's completion moves to the next index, and on the last screen changes nothing |
| `CaptchaChallenge.AdvanceStep` | components/captcha-challenge.tsx:25-31 | below the last screen the flow moves up by exactly one and shows the indicator; on the last screen nothing changes |
| `CaptchaChallenge.HideIndicator` | components/captcha-challenge.tsx:29 | the timeout hides the indicator and keeps the step |
| `CaptchaChallenge.HeaderStep` | components/captcha-challenge.tsx:47 | the header's "Step n" lies in 1..5 and is the index plus one |
| `CaptchaChallenge.AdvancePreservesValid` | components/captcha-challenge.tsx:25-31 | advancing never leaves the five screens and stops at index 4 |
| `CaptchaChallenge.IndicatorOnlyWhenAdvanced` | components/captcha-challenge.tsx:26-28 | the indicator is switched on exactly when the step actually advanced |
| `CaptchaChallenge.AdvanceTimesStops` | components/captcha-challenge.tsx:25-31 | `n` advances reach index `min(current + n, 4)` |
| `CaptchaChallenge.KeyDown` | components/captcha-challenge.tsx:33 | a key goes to the Konami hook, and the flow advances exactly when the hook fires |
| `CaptchaChallenge.TypeFollowsHook` | components/captcha-challenge.tsx:33 | typing a run of keys advances the flow once per fire of the hook |
| `CaptchaChallenge.KonamiSkipsScreen` | components/captcha-challenge.tsx:25-33 | typing the code on any screen but the last moves to the next screen, shows the indicator, and empties the buffer |

## Left out

- The text of the counter file is not modelled. JSON syntax, `JSON.stringify` with two-space indentation, and non-integer or non-string JSON values in the fields are absent. A parsed object is a `Document` with an optional integer counter, an optional list of strings and an optional timestamp.
- Counters are unbounded integers. JavaScript numbers lose precision above 2^53, and that is not modelled.
- NumberText.Decimal: it writes every integer in plain digits. JavaScript switches to exponent form from 10^21 in magnitude; only signed 32-bit values are rendered here.
- The clock is the `now` parameter. `console.error` is dropped.
- Concurrent requests are not modelled. Their read-modify-write on the file can lose updates; the model has one sequential caller.
- A failed write leaves the file unchanged. A write that truncates the file before failing is not modelled.
- VisitorTracker.VisitorService.GetVisitorCount: the catch branch returning {0, 0} is not modelled as a separate path. Reading never fails in the model, so that branch cannot be reached, and a missing or corrupt file already gives {0, 0} through the default record.
- Actions.CounterFile.GetVisitorCount: the same unreachable catch branch is left out.
- The HTTP route `app/api/visit/route.ts` and the visit counter component are not part of this model.
- Fingerprint.SingleCharacterChangeSeparates: the test that two concrete requests get different fingerprints is not restated with its two header sets. `Fingerprint.SingleCharacterChangeSeparates` proves the general case for texts of equal length that differ in one character. The test's two agents have different lengths.
- The Konami hook reads `keys` from the render that installed the listener. The model applies each key to the buffer left by the previous key, that is, it assumes a re-render between key presses.
- The Konami indicator's 2000 ms timeout is the `HideIndicator` event. Time itself is not modelled.
- The popups' staggered timers (300 ms apart) are modelled as a queue of scheduled popups, released one per `TimerFires` event in schedule order. The 1000 ms delay before `completeStep(4)` and `onComplete` is not modelled: `CompletionEffect` and `CompletionEffectIntended` take effect at once.
- The completion context's stale-closure behaviour is not modelled: two `completeStep` calls in one render each see the render-time list. The model applies completions one after the other.
- `useCaptcha` throwing outside the provider is not modelled.
- The focus challenge does not appear in the step list of `components/captcha-challenge.tsx`, which shows only five screens. The model keeps that list as written. The completion predicates and the two completion effects of the focus challenge are therefore not linked to the flow.
- Animations, portals, positions, the success banner and the input tooltip are rendering only.
- InputHell.ToLower: `toLowerCase()` is modelled for ASCII letters only. Other Unicode case mappings are not modelled.
- InputHell.LowerChar: the same ASCII restriction. It keeps every character outside `A`..`Z`, although JavaScript lower-cases other upper-case letters too.
- The other screens (intro, button hell, contrast trap, alignment test, final), theming and the constants file are not part of this model.

## Findings

| source | as written | input that shows it | evidently intended | confidence | as-written member | corrected member |
|---|---|---|---|---|---|---|
| components/screens/modal-attack.tsx:80 | completion checks only the popups already on screen: clicked, at least one shown, and all shown ones closed | click the input, let the first timer show popup 1, close popup 1 (or press Escape) within 300 ms, before popup 2 appears: the test passes with eleven popups not yet shown | complete only once all twelve popups have appeared and been closed | medium, not executed | `ModalAttack.EarlyCompletion` | `ModalAttack.CompletionEffectIntended` |

The corrected test is `AllDismissed`: the test as written, plus nothing left to
appear. `CompletionEffect` models the effect as written, built on `AllClosed`;
`CompletionEffectIntended` is built on `AllDismissed`, and
`IntendedEffectNeedsEveryPopup` proves it waits for all twelve popups.
`ClosingEveryIdCompletes` and `EscapeCompletes`
show that it can still be reached.
