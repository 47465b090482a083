# fit-tool assessments in Dafny

A model of the two client-side assessment widgets of the fit-tool repository:

- **The archetype assessment.**
  - Ten multiple-choice questions are tallied into four archetype scores (Architect, Visionary, Accelerator, Entrepreneur).
  - The scores are classified into one or more dominant archetypes by three prioritised rules: flat distribution, then three strong, then the leaders plus a strong runner-up.
  - The result is normalised into a description key: a single tag, an alphabetically sorted blend pair, or `multiple`.
  - A session state machine drives the intro form, the step cursor, the results screen and the contact form.
- **The compass teaser.**
  - Eight 1–5 sliders map through a fixed table to percentages.
  - The percentages are averaged with round-half-up.
  - A description band is chosen from the average. The three lowest attributes, found by a stable ascending sort, are named in the bands below 70.
  - A contact form posts the result to a webhook whose URL depends on the page's mode.

Modules:

| module | file | contents |
|---|---|---|
| `Wrappers` | wrappers.dfy | `Option`, standing for `undefined` where the code can produce it |
| `Archetypes` | archetype_data.dfy | the question catalog, the description table, tags, blend keys |
| `ArchetypeScoring` | archetype_scoring.dfy | `calculateScores` |
| `ArchetypeLogic` | archetype_logic.dfy | `getDominantArchetype`, `getArchetypeKey` |
| `ArchetypeApp` | archetype_app.dfy | the archetype session handlers and screen choice |
| `CompassData` | compass_data.dfy | compass questions, `SCORE_MAP`, `ATTRIBUTE_NAMES`, `getDescription` |
| `Compass` | compass.dfy | compass scoring, the stable sort, the session handlers, `getWebhookUrl` |

### Modelling assumptions

- **Scores in tenths.** Archetype scores are integer tenths, that is, the count of answers per archetype, and the thresholds 0.2, 0.3 and 0.4 become 2, 3 and 4. The catalog allows at most ten `+= 0.1` additions. For those, two such double sums are equal exactly when their counts are equal, and each compares with 0.2, 0.3 and 0.4 as its count compares with 2, 3 and 4. So every decision the classifier takes on the doubles it takes identically on the counts. This is an assumption about IEEE-754 doubles; the model does not derive it.
- **Entry order.** `Object.entries` on the score object yields Architect, Visionary, Accelerator, Entrepreneur.
- **Stable sorting.** `Array.prototype.sort` is stable, as ES2019 requires.
  - The descending score sort therefore orders by score, with ties in declaration order. This is a strict total order on the four archetypes, modelled as insertion sort under it.
  - The compass's ascending sort is modelled as a stable insertion sort. Its stability is proved: for every score, the subsequence holding that score is unchanged.
- **Math.round.** For an integer `total`, `Math.round(total / 8)` is exactly `(total + 4) / 8`. Its contract states the rounding itself: `8*avg - 4 <= total < 8*avg + 4`.
- **State and side effects.** Session handlers are pure transitions on an immutable record. An archetype user action reaches its handler only while its control is on the page and enabled (`ArchetypeApp.Enabled`). The page is what the last `render` drew. In particular the next button keeps the `disabled` attribute written at the last redraw (archetype-app.js:281), which the session records as `nextDisabled`. Only the handlers that call `render` refresh it (`ArchetypeApp.Render`). `render`, `alert`, `console`, timers, `scrollTo` and focus restoration are dropped. The webhook's success is a boolean parameter of the contact-submit transition.
- **Webhook body.** The compass code posts `contactInfo`, `score`, `responses` and `detailedScores` (compass-teaser.js:237-245); `Payload` models those.

## Model

| member | source | states |
|---|---|---|
| Archetypes.QuestionIdsDistinct | archetype-data.js:4-115 | the catalog has exactly ten questions and their ids are pairwise distinct |
| Archetypes.OneChoicePerArchetype | archetype-data.js:9-14 | every question has four options, and the k-th option belongs to the k-th declared archetype, so each archetype is chosen by exactly one option |
| Archetypes.ChoiceValuesDistinct | archetype-data.js:10-13 | option values are non-empty and pairwise distinct within every question, so the `find` by value is unambiguous |
| Archetypes.DescriptionKeys | archetype-data.js:117-162 | the description table has exactly 11 keys: every archetype's tag, `multiple`, and the alphabetically ordered blend key of every pair of distinct archetypes |
| Archetypes.TagLexOrder | archetype-logic.js:63-64 | the default string order on two tags agrees with their alphabetical rank, which fixes which tag a blend key starts with |
| Archetypes.TagInjective | archetype-logic.js:5-10 | distinct archetypes have distinct tags |
| ArchetypeScoring.Find | archetype-logic.js:15 | `find` yields nothing iff no option has the value, and otherwise the first option that has it |
| ArchetypeScoring.ContributionSpec | archetype-logic.js:12-20 | a question scores for `a` iff its answer is non-empty and equals the value of the option belonging to `a`; it scores nothing iff the answer is empty or matches no option |
| ArchetypeScoring.Scores.Bump | archetype-logic.js:17 | adding a tenth raises exactly the chosen archetype's entry by one, leaves the other three unchanged and raises the total by one |
| ArchetypeScoring.TallyCounts | archetype-logic.js:5-22 | each archetype's score equals the number of questions whose answer voted for it |
| ArchetypeScoring.TallyTotal | archetype-logic.js:5-22 | the score total is the number of scoring answers, at most the number of questions, and so is every single entry |
| ArchetypeScoring.FullFormScoresTen | archetype-data.js:4-115 | a form answering all ten questions with one of their options scores ten tenths in all |
| ArchetypeScoring.CalculateScores | archetype-logic.js:4-23 | visiting the catalog in order from all-zero scores yields scores whose entries count each archetype's votes and whose total counts the scoring answers, at most ten |
| ArchetypeLogic.Ranking | archetype-logic.js:26-27 | the sorted entries hold all four archetypes, by descending score with ties in declaration order |
| ArchetypeLogic.AtLeast | archetype-logic.js:40 | the filter keeps exactly the archetypes reaching the threshold, never grows the list and keeps its order and distinctness |
| ArchetypeLogic.WithScore | archetype-logic.js:46-48 | the filter keeps exactly the archetypes with the given score, never grows the list and keeps its order and distinctness |
| ArchetypeLogic.DominantArchetypes | archetype-logic.js:25-56 | the classification is total, non-empty, duplicate-free, at most four long and in ranking order |
| ArchetypeLogic.Leaders | archetype-logic.js:45-55 | the default rule on a ranking returns a non-empty list no longer than the ranking, still in ranking order |
| ArchetypeLogic.FlatRule | archetype-logic.js:32-37 | when every score is in [0.2, 0.4) the result is the whole ranking: all four archetypes |
| ArchetypeLogic.StrongRule | archetype-logic.js:39-43 | when not flat and at least three scores reach 0.3, the result holds exactly the archetypes reaching 0.3 |
| ArchetypeLogic.DefaultShape | archetype-logic.js:45-55 | when neither earlier rule fires the result is the default rule applied to the ranking |
| ArchetypeLogic.DefaultRule | archetype-logic.js:45-55 | in the default case the result is every archetype holding the maximum; a lone leader gets the runner-up appended exactly when the runner-up reaches 0.4 |
| ArchetypeLogic.SecondPlace | archetype-logic.js:30 | with a unique leader, the ranking's second entry is the runner-up: highest below the maximum, earliest declared among ties |
| ArchetypeLogic.MaxScoreIsMax | archetype-logic.js:29 | the independently defined maximum bounds every score and is attained by one |
| ArchetypeLogic.RankingFacts | archetype-logic.js:26-29 | the ranking's first score is the maximum and scores never increase along the ranking |
| ArchetypeLogic.FilterLengths | archetype-logic.js:40-48 | filtering the ranking keeps as many archetypes as independently count at or above, or exactly at, the threshold |
| ArchetypeLogic.ArchetypeKey | archetype-logic.js:58-73 | three or more archetypes give `multiple`, one gives its own tag, none gives `undefined`, and every key returned is in the description table |
| ArchetypeLogic.PairKeyResolution | archetype-logic.js:61-69 | a pair of distinct archetypes gives its alphabetically ordered blend key whatever their order; a pair repeating one archetype gives `multiple` |
| ArchetypeLogic.SelfPairNotAKey | archetype-logic.js:66-69 | a key doubling one tag is not in the table, which is why the fallback to `multiple` exists |
| ArchetypeLogic.ClassificationHasDescription | archetype-logic.js:58-73 | every classification resolves to a key present in the description table; a pair resolves to its blend key |
| ArchetypeLogic.FlatExample | archetype-logic.js:32-37 | scores 0.3/0.3/0.2/0.2 are flat and return all four archetypes in declaration order, key `multiple` |
| ArchetypeLogic.LoneLeader | archetype-logic.js:45-55 | when neither earlier rule fires, a unique leader whose rivals all stay below 0.4 is returned alone |
| ArchetypeLogic.LoneLeaderExample | archetype-logic.js:45-55 | scores 0.4/0.1/0.1/0.1 return the lone Architect with its own key |
| ArchetypeLogic.TiedPairExample | archetype-logic.js:45-48 | scores 0.4/0.4/0.1/0.1 return Architect and Visionary tied for first, key `architect-visionary` |
| ArchetypeLogic.RunnerUpExample | archetype-logic.js:50-53 | scores 0.1/0.5/0.0/0.4 return Visionary with runner-up Entrepreneur, key `entrepreneur-visionary` |
| ArchetypeLogic.ThreeStrongExample | archetype-logic.js:39-43 | scores 0.3/0.3/0.3/0.1 return the three strong archetypes before the default rule, key `multiple` |
| ArchetypeApp.Init | archetype-app.js:5-36 | the session starts on the intro step with every flag off, every form field empty and an empty contact, and `init` draws it |
| ArchetypeApp.Render | archetype-app.js:457-469 | a redraw makes the next button's disabled state match the session and changes nothing else |
| ArchetypeApp.InputChange | archetype-app.js:44-52 | only the named field changes, it takes the value, and the error is always hidden; the page is redrawn only if an error was showing, otherwise the next button keeps its drawn state |
| ArchetypeApp.StartAssessment | archetype-app.js:54-63 | the first question opens iff name, organization and role are all filled; otherwise the error shows and the step is unchanged |
| ArchetypeApp.Next | archetype-app.js:65-74 | below the last question the step advances by one; on the last one the results show and the step stays |
| ArchetypeApp.Back | archetype-app.js:76-83 | a positive step goes back one, step 0 returns to the intro, the intro stays, the page is redrawn, nothing else changes |
| ArchetypeApp.Reset | archetype-app.js:106-125 | every form field reads empty, the step returns to the intro, results and contact form are hidden; error flag and contact are untouched |
| ArchetypeApp.EmptyForm | archetype-app.js:107-122 | the reset form holds exactly the fourteen fields, each empty |
| ArchetypeApp.ToggleContactForm | archetype-app.js:132-144 | the form's visibility flips; opening prefills name and organization from the intro with an empty email, closing keeps the contact; the page is redrawn |
| ArchetypeApp.ContactChange | archetype-app.js:85-88 | exactly the named contact field takes the value |
| ArchetypeApp.ContactSubmit | archetype-app.js:90-104 | accepted iff name, organization and email are all filled; acceptance hides the form, re-prefills the contact and redraws the page, rejection changes nothing |
| ArchetypeApp.ScreenOf | archetype-app.js:463-469 | results iff the results flag is set; otherwise the intro iff an intro field is empty or the step is -1; otherwise the question at the current step |
| ArchetypeApp.QuestionScreenInCatalog | archetype-app.js:463-469 | in a valid session a question screen always shows a catalog question |
| ArchetypeApp.Lookup | archetype-app.js:296 | the `||` lookup returns the key's entry when it exists, else the fallback's entry, else nothing |
| ArchetypeApp.DescriptionFor | archetype-app.js:292-296 | the results screen finds a description iff there is a dominant archetype, and it is the archetype key's own entry |
| ArchetypeApp.ResultsDescription | archetype-app.js:292-296 | for every form the key lookup succeeds, so the fallback to the first dominant archetype never fires |
| ArchetypeApp.Enabled | archetype-app.js:161-447 | a control can be used only on the screen it is drawn on; the next button only when it was not drawn disabled; the contact inputs and submit only while the contact form is open |
| ArchetypeApp.Apply | archetype-app.js:189-447 | an absent or disabled control changes nothing; every action keeps the step in [-1, 9]; the results appear only through an enabled next button on the last question |
| ArchetypeApp.RunPreservesValid | archetype-app.js:54-83 | under any sequence of user actions the step stays within [-1, 9] |
| ArchetypeApp.ReachableSessionsValid | archetype-app.js:6 | every session reachable from the constructor keeps the step within [-1, 9] |
| ArchetypeApp.AdvanceReachesResults | archetype-app.js:65-74 | n presses of Next show the results iff they outnumber the questions left, and the step stops on the last question |
| ArchetypeApp.FullWalkShowsResults | archetype-app.js:54-74 | after a successful start, ten presses of Next reach the results and nine do not |
| ArchetypeApp.BackUndoesNext | archetype-app.js:65-83 | from the intro or any question before the last, Back after Next restores the session as freshly drawn, and exactly when it was already drawn from it |
| ArchetypeApp.NextUndoesBack | archetype-app.js:65-83 | on any question, Next after Back restores the session as freshly drawn, and exactly when it was already drawn from it |
| ArchetypeApp.ResetShowsIntro | archetype-app.js:106-125 | after a reset the intro screen is drawn |
| ArchetypeApp.StartShowsFirstQuestion | archetype-app.js:54-63 | a successful start shows the first question; an unsuccessful one leaves the screen unchanged |
| ArchetypeApp.ToggleTwice | archetype-app.js:132-144 | opening then closing the contact form leaves it closed with the prefilled contact, the page redrawn and nothing else changed |
| ArchetypeApp.FreshContactRejected | archetype-app.js:90-104 | a freshly opened contact form cannot be submitted because its email is empty |
| ArchetypeApp.EmptyFormScoresZero | archetype-logic.js:4-23 | a reset form scores zero for every archetype |
| ArchetypeApp.IntroFieldsNotQuestions | archetype-app.js:16-31 | the intro's name, organization and role fields are not question ids, so typing in them never touches an answer |
| ArchetypeApp.ApplyKeepsWalked | archetype-app.js:234-290 | every drawn and enabled control keeps each answer empty or one of its question's options, keeps every question before the cursor answered, and shows the results only with every question answered |
| ArchetypeApp.RunKeepsWalked | archetype-app.js:234-290 | the same holds after any sequence of user actions |
| ArchetypeApp.ResultsOnlyWhenAnswered | archetype-app.js:279-281 | because the next button is drawn disabled on an unanswered question, whenever the results show after construction every question holds one of its options and the scores total ten tenths, both as written and with the intended redraw on every choice |
| ArchetypeApp.AnsweredWalk | archetype-app.js:65-74 | on a page drawn from a fully answered form, pressing the next button any number of times acts exactly like calling `handleNext` that often, because each call redraws the page with the button enabled |
| ArchetypeApp.AnsweredWalkShowsResults | archetype-app.js:65-74 | from the first question of a fully answered form, drawn as it is, ten presses of the next button reach the results |
| ArchetypeApp.ChoiceKeepsNextDisabled | archetype-app.js:44-52 | choosing an option under a next button drawn disabled, with no error showing, answers the question but leaves the button disabled, so the next press changes nothing |
| ArchetypeApp.StaleWalkStuck | archetype-app.js:44-52 | as written, picking an option and pressing next any number of times never leaves a question whose next button was drawn disabled |
| ArchetypeApp.StaleNextButtonExample | archetype-app.js:44-52 | filling the intro, starting, picking the first option and pressing next leaves the first question on screen, answered |
| ArchetypeApp.ApplyIntended | archetype-app.js:263 | with a redraw on every choice, choosing an option enables the next button; every other action is handled as written |
| ArchetypeApp.IntendedWalk | archetype-app.js:263 | with a redraw on every choice, picking and pressing next from any question reaches the results |
| ArchetypeApp.RunIntendedKeepsWalked | archetype-app.js:263 | the intended handling keeps the same walk invariant as the code as written |
| CompassData.CompassCatalog | compass-teaser-data.js:4-93 | eight questions with distinct ids, each with exactly five labels |
| CompassData.ScoreOf | compass-teaser-data.js:95-101 | every slider position has a percentage, between 15 and 100 |
| CompassData.ScoreMapStrictlyIncreasing | compass-teaser-data.js:95-101 | a higher position always maps to a higher percentage, the map is injective, and position 3 maps to 60 |
| CompassData.AttributeNamesCover | compass-teaser-data.js:103-112 | every question id has a display name and the table has no other entries |
| CompassData.AttributeNamesInOrder | compass-teaser-data.js:103-112 | the display names of the questions in catalog order |
| CompassData.AttributeNamesDistinct | compass-teaser-data.js:103-112 | no two questions share a display name |
| CompassData.BandOf | compass-teaser-data.js:116-131 | the nested tests pick a band whose interval contains the average |
| CompassData.BandsPartition | compass-teaser-data.js:116-131 | every integer average lies in exactly one of the six bands, each closed at its lower edge |
| CompassData.BandMonotone | compass-teaser-data.js:116-131 | a higher average never selects a lower band |
| CompassData.GetDescription | compass-teaser-data.js:115-133 | the band contains the average; below 70 exactly three names are interpolated, taken from the first three of `lowest3`; from 70 up none are |
| CompassData.DescriptionDependence | compass-teaser-data.js:116-131 | from 70 up the description ignores `lowest3`; below 70 two descriptions agree iff their first three names agree |
| Compass.DefaultSliders | compass-teaser.js:16-19 | every catalog slider is present at position 3, and no other |
| Compass.Average | compass-teaser.js:69-70 | the average is within half a unit of total/8, a half rounding up |
| Compass.AverageUnique | compass-teaser.js:70 | only one integer satisfies the round-half-up bounds |
| Compass.CalculateScore | compass-teaser.js:59-73 | one entry per question in catalog order, holding the display name and the slider's percentage, and their mean rounded half up, between 15 and 100 |
| Compass.AverageBounds | compass-teaser.js:59-73 | any complete set of sliders averages between 15 and 100 |
| Compass.SumBounds | compass-teaser.js:69 | percentages between 15 and 100 sum to between 15 and 100 times their count |
| Compass.DefaultAverage | compass-teaser.js:17-19 | untouched sliders average to exactly 60 |
| Compass.SliderRaisesAverage | compass-teaser.js:35-37 | moving one slider up never lowers the average, and other attributes' entries do not change |
| Compass.UniformScores | compass-teaser.js:60-67 | sliders all at one position all score that position's percentage |
| Compass.SortAscending | compass-teaser.js:76 | the sorted copy is ascending by score and a permutation of the input |
| Compass.SortStable | compass-teaser.js:76 | the sort is stable: for every score, the entries holding it keep their input order |
| Compass.TiesKeepOrder | compass-teaser.js:76 | when all scores tie the sort returns the input unchanged |
| Compass.Lowest | compass-teaser.js:77 | the slice holds min(3, n) entries drawn from the input |
| Compass.LowestAreLowest | compass-teaser.js:76-77 | the lowest three are ascending and no entry left out scores below any of them |
| Compass.GetScoreDescription | compass-teaser.js:75-79 | the band contains the average; below 70 it names the lowest three attributes in sorted order; from 70 up it names none |
| Compass.UniformLowest | compass-teaser.js:76-77 | with all sliders tied, the lowest three are the catalog's first three attributes |
| Compass.DefaultDescription | compass-teaser.js:75-79 | untouched sliders give the [60, 70) band naming Awake, Aware and Reflective |
| Compass.FindScore | compass-teaser.js:226 | the lookup by name is 0 when no entry has the name and otherwise the first such entry's score |
| Compass.DetailedScoresMatch | compass-teaser.js:225-234 | every question id's detailed score equals its own slider's percentage |
| Compass.WebhookUrl | compass-teaser.js:103-113 | the test URL is chosen iff the mode is `test`; any other, empty or missing mode yields the production URL |
| Compass.Init | compass-teaser.js:5-29 | results and contact form hidden, every slider at 3, empty contact, no notification, score 0 |
| Compass.SliderChange | compass-teaser.js:35-37 | the given slider takes the position and every other slider keeps its own |
| Compass.Notify | compass-teaser.js:40-46 | the notification shows the message and tone and nothing else changes |
| Compass.HideNotification | compass-teaser.js:54-57 | the notification is hidden, keeping its message and tone, and nothing else changes |
| Compass.ShowResults | compass-teaser.js:164-168 | the results show with the current average as the score |
| Compass.ToggleContactForm | compass-teaser.js:190-193 | only the contact form's visibility flips |
| Compass.ContactChange | compass-teaser.js:210-212 | exactly the named contact field takes the value |
| Compass.ContactSubmit | compass-teaser.js:214-264 | something is posted iff name, email and company are filled; an incomplete contact only shows an error; the post carries the contact, the sliders, the fresh average and the detailed scores; success clears the contact and hides the form, failure only shows an error |
| Compass.TryAgain | compass-teaser.js:266-279 | every catalog slider returns to 3, other keys keep theirs, no key is added beyond the catalog ids, and results, contact form and contact are cleared |
| Compass.TryAgainRestoresInit | compass-teaser.js:266-279 | with only catalog sliders, trying again is the constructor's state except for the notification and last score |
| Compass.Apply | compass-teaser.js:35-279 | every event keeps all sliders present and the shown score 0 or within [15, 100] |
| Compass.Run | compass-teaser.js:35-279 | any sequence of events keeps all sliders present and the shown score 0 or within [15, 100] |
| Compass.ReachableScores | compass-teaser.js:164-168 | every state reachable from the constructor shows a score of 0 or a percentage in [15, 100] |

## Findings

| source | as written | input that shows it | evidently intended | confidence | as-written member | corrected member |
|---|---|---|---|---|---|---|
| archetype-app.js:44-52 | choosing an option calls `handleInputChange`, which redraws only when an error is showing; the next button keeps the `disabled` attribute (archetype-app.js:281) it was drawn with while the question was empty | fill name, organization and role, press start, pick the first option of the first question, press next: the press is ignored and the first question stays on screen | choosing an option enables the next button, so picking and pressing next walks through the questions to the results | high, not executed | ArchetypeApp.StaleWalkStuck | ArchetypeApp.IntendedWalk |

The session model (`Apply`, `Run`) follows the code as written. `StaleNextButtonExample` replays the input above. `ApplyIntended` and `RunIntended` redraw the page after every choice; `IntendedWalk` proves the intended walk for them. `ResultsOnlyWhenAnswered` holds for both.

## Left out

- HTML generation, `innerHTML` rendering and focus/cursor restoration (archetype-app.js:457-481 and the render methods). What the markup decides is modelled. That is which screen is drawn (`ArchetypeApp.ScreenOf`) and which controls it offers (`ArchetypeApp.Enabled`). It also covers the next button's `disabled` attribute as of the last redraw (`ArchetypeApp.DrawnDisabled`, `ArchetypeApp.Render`). The model treats the screen itself as following the session between redraws. The handlers that skip `render` (`handleInputChange` without an error, `handleContactChange`, a rejected contact submit) never change which screen `render` would choose. The compass page's controls are not gated this way: `Compass.Apply` lets every event fire in every state.
- `animateScores` (archetype-logic.js:75-106) and `animateScore` (compass-teaser.js:81-101): timer-driven display of float progress fractions; the score they animate to is modelled.
- Timers and browser side effects: the notification's 5-second auto-hide `setTimeout`, `alert`, `console` logging and `scrollTo`. `HideNotification` models what the timer does when it fires.
- `sendToWebhook` (compass-teaser.js:115-162): a network `fetch`. Its outcome is the boolean `webhookOk` of `Compass.ContactSubmit`; the request's headers and logging are not modelled.
- The payload's `timestamp`, `assessmentType` and `contactFormSubmitted` fields: a clock reading and two constants.
- The percentages displayed on the archetype results screen (`scores.x * 100`, archetype-app.js:320-350): float display only.
- The `ChevronRight`/`ChevronLeft` SVG strings and the global `app` bootstrap (archetype-app.js:485-494, compass-teaser.js:626-635): constants and start-up wiring.
- Question prompts, option labels and description bodies: display prose. Option values, archetypes, compass slider labels and description titles are kept.
- A shareable-URL codec: no such code is among the modelled files.
- Compass.SliderChange: positions are the `Ordinal` type 1..5. The page's live controls are the radio buttons `renderQuestion` draws (compass-teaser.js:393-403), whose `onchange` passes the literal position 1 to 5. The range-input markup at compass-teaser.js:292 is built into `questionsHtml`, which is never inserted into the page. A call with any other value, which would store `NaN` or an out-of-range number, is not modelled.
- Compass.ContactSubmit: one atomic transition with the webhook's answer as the boolean `webhookOk`. The source awaits the POST (compass-teaser.js:248) before it shows the thanks message, clears the contact and hides the form. Meanwhile a second submit, `handleTryAgain` or contact edits can run, and a double submit posts twice. These interleavings are not modelled. Neither is the `catch` branch's unexpected-error message (compass-teaser.js:260-263): `sendToWebhook` catches its own exceptions and returns `false`.
- Compass.WebhookUrl: a mode naming an inherited `Object.prototype` member such as `toString` would make `urls[mode]` a function; the model treats every mode other than `production` and `test` as absent from the table.
- Compass.CalculateScore: requires every catalog slider to be present. The constructor establishes this, and every transition keeps it (`Compass.Run`).
- ArchetypeApp.Prefill: a form without `name` or `organization` would prefill `undefined`; the model reads it as empty. Every form the session creates holds all fourteen fields.
- The archetype `showResults` screen's score animation timer is neither started nor cleared by `ArchetypeApp.Next` or `ArchetypeApp.Reset`.
- `detailedScores` is written as one entry per `ATTRIBUTE_NAMES` pair. These are exactly the eight id/name pairs compass-teaser.js:225-234 spells out.
