# AIinterview page logic in Dafny

AIinterview is a React front end for mock interviews. Almost all of it is markup. This project models the small state machines and helpers inside five of its pages, and proves what those pages promise:

- **Contest mode** (`contest_mode.dfy`, module `ContestMode`). The page moves through an overview, a matrix of five rounds, a technical-round screen, an HR voice round with a two-minute recording, a final score and a leaderboard.
  - The HR round stays locked until the four technical rounds are completed.
  - Entering a locked round does nothing.
  - Completed rounds never revert.
  - The total score is the sum of five bounded category scores.
  - The leaderboard is a permutation of its five rows, sorted by descending score; the sort is stable, so tied rows keep their listed order.
- **Core CS questionnaire** (`core_cs_questionnaire.dfy`, module `CoreCsQuestionnaire`). It covers:
  - topic toggling;
  - adding a custom topic on Enter, after trimming;
  - generating `questionCount` questions whose topics cycle through the selection and whose closing clause alternates with the index parity;
  - clamped Previous/Next navigation;
  - one stored answer per question index;
  - final submission from the last question.
- **Resume interview** (`resume_based_interview.dfy`, module `ResumeBasedInterview`). It covers:
  - the 30-minute countdown, clamped at zero;
  - the `m:ss` time display, proved to round-trip with a parser;
  - the ten-question tracker, whose submit step marks exactly the question that was current at the click and never un-answers one.
- **Resume upload** (`resume_upload_page.dfy`, module `ResumeUpload`). This is the two-field selection state machine. Its invariant is that an uploaded file implies the selection is the new upload. Once Start is enabled, it stays enabled.
- **Interview result** (`interview_result_page.dfy`, module `InterviewResult`). It covers:
  - the three score bands of the status badge, each as an if-and-only-if, and their monotonicity;
  - the fallback to a default result record;
  - the numbering of suggestions.

`countdown.dfy` (module `Countdown`) holds the clamped tick shared by both timers. `wrappers.dfy` holds `Option`.

How the source is modelled:

- Each page with state is a class, with one field per `useState`.
- Each event handler is a method. Its `requires` says when the page offers that handler: the step in which the button is rendered, or the condition under which it is enabled.
- Timer callbacks and `setTimeout` completions are explicit methods: `Tick`, `CompleteSubmit` and `CompleteGeneration`.
- Browser answers are parameters: microphone permission, the chosen files and `Math.random()` results.
- Round statuses live in an `array`, updated in place as the handlers do.

Two behaviours of the code worth noting:

- Entering a round never changes its status, so no round is ever `in_progress` (`AIinterview/src/pages/ContestMode.jsx:53-63`).
- The countdown intervals keep firing at zero, and the value stays at 0 (`Countdown.StaysAtZero`).

## Model

| member | source | states |
|---|---|---|
| Countdown.Tick | AIinterview/src/pages/ResumeBasedInterview.jsx:23 | One tick: one second less while positive, otherwise 0; never negative |
| Countdown.AfterTicks | AIinterview/src/pages/ResumeBasedInterview.jsx:21-26 | After k ticks from `start`, the remaining time is `start - k`, or 0 once k reaches `start` |
| Countdown.StaysAtZero | AIinterview/src/pages/ContestMode.jsx:98 | Once the countdown has reached 0, further ticks leave it at 0 |
| Countdown.RecordingTimerExample | AIinterview/src/pages/ContestMode.jsx:34 | From 120, 45 ticks leave 75 and 121 ticks leave 0 |
| ResumeBasedInterview.DigitChar | AIinterview/src/pages/ResumeBasedInterview.jsx:31 | The character for a digit below 10 is a decimal digit of that value |
| ResumeBasedInterview.NatToDecimal | AIinterview/src/pages/ResumeBasedInterview.jsx:29-31 | `toString` of a whole number: non-empty digits, no leading zero except for 0 itself |
| ResumeBasedInterview.DecimalRoundTrip | AIinterview/src/pages/ResumeBasedInterview.jsx:29-31 | Reading back the decimal text of n gives n |
| ResumeBasedInterview.DecimalCanonical | AIinterview/src/pages/ResumeBasedInterview.jsx:29-31 | Every canonical digit string is the decimal text of its value |
| ResumeBasedInterview.PadStart | AIinterview/src/pages/ResumeBasedInterview.jsx:31 | `padStart`: the result is at least `width` long, ends with the input, and is filled before it |
| ResumeBasedInterview.FormatTime | AIinterview/src/pages/ResumeBasedInterview.jsx:28-32 | `formatTime`: canonical minutes, a colon and two digits of seconds below 60, where minutes·60 + seconds equals the input |
| ResumeBasedInterview.FormatThenParse | AIinterview/src/pages/ResumeBasedInterview.jsx:28-32 | Parsing the display of s gives back s |
| ResumeBasedInterview.ParseThenFormat | AIinterview/src/pages/ResumeBasedInterview.jsx:28-32 | Every well-formed `m:ss` text is the display of the seconds it parses to |
| ResumeBasedInterview.FormatTimeExamples | AIinterview/src/pages/ResumeBasedInterview.jsx:6-32 | The start value 1800 shows as "30:00" and 0 shows as "0:00" |
| ResumeBasedInterview.InitialQuestions | AIinterview/src/pages/ResumeBasedInterview.jsx:9-14 | Ten questions; question i has id i + 1 and is answered exactly when it comes before the current index 5 |
| ResumeBasedInterview.MarkAnsweredCount | AIinterview/src/pages/ResumeBasedInterview.jsx:41-43 | Marking question i answered raises the answered count by one exactly when it was unanswered |
| ResumeBasedInterview.AnsweredCountBound | AIinterview/src/pages/ResumeBasedInterview.jsx:9-14 | At most every question is answered |
| ResumeBasedInterview.InitialPrefixCount | AIinterview/src/pages/ResumeBasedInterview.jsx:12 | Of the first k initial questions, min(k, 5) are answered |
| ResumeBasedInterview.InitialAnsweredCount | AIinterview/src/pages/ResumeBasedInterview.jsx:9-14 | Five of the ten initial questions are answered |
| ResumeBasedInterview.Interview.constructor | AIinterview/src/pages/ResumeBasedInterview.jsx:6-18 | 1800 seconds, ten questions with ids 1..10 (the first five answered), current index 5, empty answer, not submitting |
| ResumeBasedInterview.Interview.Tick | AIinterview/src/pages/ResumeBasedInterview.jsx:21-26 | One interval tick applies the clamped tick to the remaining seconds |
| ResumeBasedInterview.Interview.Submit | AIinterview/src/pages/ResumeBasedInterview.jsx:35-36 | Offered only while not submitting; sets submitting, which disables the button, and records the current index |
| ResumeBasedInterview.Interview.CompleteSubmit | AIinterview/src/pages/ResumeBasedInterview.jsx:39-47 | Marks exactly the question current at the click as answered; every other question is unchanged; none is un-answered; the answered count does not drop; submitting ends |
| ResumeBasedInterview.Interview.SelectQuestion | AIinterview/src/pages/ResumeBasedInterview.jsx:87 | The clicked question becomes current; no status changes |
| ResumeBasedInterview.Interview.SetAnswer | AIinterview/src/pages/ResumeBasedInterview.jsx:134 | The answer text becomes the typed text |
| ResumeUpload.Page.constructor | AIinterview/src/pages/ResumeUploadPage.jsx:15-16 | Nothing selected, no file, Start disabled |
| ResumeUpload.Page.ChooseFile | AIinterview/src/pages/ResumeUploadPage.jsx:24-30 | A non-empty choice stores its first file and selects the new upload; an empty choice changes nothing; Start stays enabled; the invariant holds |
| ResumeUpload.Page.SelectExisting | AIinterview/src/pages/ResumeUploadPage.jsx:59 | Clicking resume k (1..3) selects it and clears the uploaded file; Start is enabled; the invariant holds |
| ResumeUpload.Page.StartEnabled | AIinterview/src/pages/ResumeUploadPage.jsx:161 | Under the page invariant, Start is enabled exactly when a file is held or a stored resume is selected |
| ResumeUpload.ClickSequence | AIinterview/src/pages/ResumeUploadPage.jsx:59-93 | After clicking an existing resume twice and then choosing files, the invariant holds and Start is enabled; with no file chosen, the clicked resume stays selected |
| InterviewResult.StatusBadge | AIinterview/src/pages/InterviewResultPage.jsx:80-84 | "Excellent" iff score ≥ 8, "Good" iff 6 ≤ score < 8, "Needs Improvement" iff score < 6 |
| InterviewResult.BadgeTextOfScore | AIinterview/src/pages/InterviewResultPage.jsx:80-84 | The badge text is "Excellent" iff score ≥ 8, "Good" iff 6 ≤ score < 8, "Needs Improvement" iff score < 6 |
| InterviewResult.StatusBadgeMonotone | AIinterview/src/pages/InterviewResultPage.jsx:80-84 | A higher score never gets a lower band |
| InterviewResult.Resolve | AIinterview/src/pages/InterviewResultPage.jsx:55-78 | The passed-in result when present, the default record otherwise |
| InterviewResult.PageBadge | AIinterview/src/pages/InterviewResultPage.jsx:86 | The badge of the shown record: the band of the passed-in overall score, or "Good" for the default |
| InterviewResult.DefaultResult | AIinterview/src/pages/InterviewResultPage.jsx:56-77 | The sample record: overall 7.8, up from a previous 6.9; technical 8.2, communication 7.5, behavioural 7.2; three strengths, three improvements and three suggestions |
| InterviewResult.DefaultResultShape | AIinterview/src/pages/InterviewResultPage.jsx:56-77 | The default overall score classifies as "Good" |
| InterviewResult.NumberSuggestions | AIinterview/src/pages/InterviewResultPage.jsx:167-170 | Row i shows number i + 1 and suggestion i, in order, one row per suggestion |
| InterviewResult.SuggestionNumbersIncrease | AIinterview/src/pages/InterviewResultPage.jsx:167-170 | Numbers strictly increase and the last equals the number of suggestions |
| CoreCsQuestionnaire.DefaultTopicsShape | AIinterview/src/pages/CoreCSQuestionnaire.jsx:25-28 | The topic chips are seven distinct topics, and the initially selected "Operating Systems" is one of them |
| CoreCsQuestionnaire.Without | AIinterview/src/pages/CoreCSQuestionnaire.jsx:33 | `filter(t => t !== topic)`: every occurrence of the topic is dropped and every other entry kept with its multiplicity; no list grows; a missing topic changes nothing; no duplicates are created |
| CoreCsQuestionnaire.WithoutConcat | AIinterview/src/pages/CoreCSQuestionnaire.jsx:33 | Filtering a concatenation filters each part and keeps them in order, so the kept topics keep their relative order |
| CoreCsQuestionnaire.Toggle | AIinterview/src/pages/CoreCSQuestionnaire.jsx:31-35 | The topic's membership flips; every other topic's membership is unchanged; an absent topic is appended at the end; no duplicates are created |
| CoreCsQuestionnaire.WithoutAppended | AIinterview/src/pages/CoreCSQuestionnaire.jsx:33 | Removing a topic just appended to a list that lacked it gives the list back |
| CoreCsQuestionnaire.ToggleTwice | AIinterview/src/pages/CoreCSQuestionnaire.jsx:31-35 | Toggling twice restores the selected set, and restores the exact list when the topic was not selected |
| CoreCsQuestionnaire.TrimStart | AIinterview/src/pages/CoreCSQuestionnaire.jsx:38 | A suffix of the input that does not start with whitespace, with only whitespace removed |
| CoreCsQuestionnaire.TrimEnd | AIinterview/src/pages/CoreCSQuestionnaire.jsx:38 | A prefix of the input that does not end with whitespace, with only whitespace removed |
| CoreCsQuestionnaire.Trim | AIinterview/src/pages/CoreCSQuestionnaire.jsx:38 | `trim()`: the result is a slice of the input with only whitespace before and after it; neither of its ends is whitespace; it is empty exactly when the input is all whitespace |
| CoreCsQuestionnaire.TrimInterior | AIinterview/src/pages/CoreCSQuestionnaire.jsx:38 | What trimming keeps is the slice starting after the leading whitespace, followed only by whitespace |
| CoreCsQuestionnaire.TrimIdempotent | AIinterview/src/pages/CoreCSQuestionnaire.jsx:38-40 | Trimming twice is trimming once |
| CoreCsQuestionnaire.TrimDbms | AIinterview/src/pages/CoreCSQuestionnaire.jsx:40 | "DBMS " trims to "DBMS" |
| CoreCsQuestionnaire.AddCustomTopicAsWritten | AIinterview/src/pages/CoreCSQuestionnaire.jsx:37-44 | As written: the old selection is kept as a prefix; one topic is appended exactly on Enter with non-blank input whose RAW text is not selected; what is appended is the trimmed text; the input is cleared exactly on Enter with non-blank input |
| CoreCsQuestionnaire.AsWrittenSelectsDuplicate | AIinterview/src/pages/CoreCSQuestionnaire.jsx:37-44 | As written, Enter on "DBMS " with "DBMS" selected gives a selection with "DBMS" twice |
| CoreCsQuestionnaire.AddCustomTopic | AIinterview/src/pages/CoreCSQuestionnaire.jsx:37-44 | Acts only on Enter with non-blank input: clears the input, and the selection becomes the old one plus the trimmed topic, appended at most once; otherwise nothing changes; no duplicates are created |
| CoreCsQuestionnaire.Clause | AIinterview/src/pages/CoreCSQuestionnaire.jsx:52 | The clause is "resource allocation" exactly for an even index, and "concurrency" otherwise |
| CoreCsQuestionnaire.QuestionText | AIinterview/src/pages/CoreCSQuestionnaire.jsx:52 | The text is the fixed opening, then the topic, and it ends with the index's clause and a question mark |
| CoreCsQuestionnaire.TopicOf | AIinterview/src/pages/CoreCSQuestionnaire.jsx:52 | `selectedTopics[i % length]` is a selected topic |
| CoreCsQuestionnaire.BuildQuestions | AIinterview/src/pages/CoreCSQuestionnaire.jsx:50-53 | Exactly `count` questions; question i has id i + 1 and names topic i mod n, with the clause for i's parity |
| CoreCsQuestionnaire.QuestionNamesSelectedTopic | AIinterview/src/pages/CoreCSQuestionnaire.jsx:52 | Question i's text contains, right after the fixed opening, a topic that is selected |
| CoreCsQuestionnaire.QuestionIdsDistinct | AIinterview/src/pages/CoreCSQuestionnaire.jsx:51 | Generated question ids are pairwise distinct |
| CoreCsQuestionnaire.TopicsCycle | AIinterview/src/pages/CoreCSQuestionnaire.jsx:52 | Topics repeat with period n; neighbouring questions get different clauses |
| CoreCsQuestionnaire.EveryTopicCovered | AIinterview/src/pages/CoreCSQuestionnaire.jsx:50-53 | With at least as many questions as topics, every selected topic is asked about |
| CoreCsQuestionnaire.InitialConfigurationExample | AIinterview/src/pages/CoreCSQuestionnaire.jsx:18-20 | From the initial selection and count, five questions, all about "Operating Systems" |
| CoreCsQuestionnaire.PreviousIndex | AIinterview/src/pages/CoreCSQuestionnaire.jsx:213 | `max(0, idx - 1)`: stays in range, one back unless at 0 |
| CoreCsQuestionnaire.NextIndex | AIinterview/src/pages/CoreCSQuestionnaire.jsx:227 | `min(n - 1, idx + 1)`: stays in range, one forward unless at the end |
| CoreCsQuestionnaire.Session.constructor | AIinterview/src/pages/CoreCSQuestionnaire.jsx:17-23 | Setup step, "Operating Systems" selected, empty input, count 5, index 0, no answers, no questions |
| CoreCsQuestionnaire.Session.ToggleTopic | AIinterview/src/pages/CoreCSQuestionnaire.jsx:31-35 | Offered only for the seven topic chips (jsx:108-115), so a custom topic cannot be removed; the selection becomes its toggle; the invariant (no duplicates, a preset count) holds |
| CoreCsQuestionnaire.Session.SetCustomTopic | AIinterview/src/pages/CoreCSQuestionnaire.jsx:124 | The input holds the typed text |
| CoreCsQuestionnaire.Session.AddCustomTopicKey | AIinterview/src/pages/CoreCSQuestionnaire.jsx:37-44 | The selection and input become those of the corrected add; other keys and blank input change nothing |
| CoreCsQuestionnaire.Session.SetQuestionCount | AIinterview/src/pages/CoreCSQuestionnaire.jsx:134-137 | Only 5, 10 or 15 can be chosen, and it becomes the count |
| CoreCsQuestionnaire.Session.Generate | AIinterview/src/pages/CoreCSQuestionnaire.jsx:46-47 | Offered only with a topic selected; moves to loading |
| CoreCsQuestionnaire.Session.CompleteGeneration | AIinterview/src/pages/CoreCSQuestionnaire.jsx:49-56 | Stores the built questions, exactly `questionCount` of them, and moves to the questions step |
| CoreCsQuestionnaire.Session.SelectQuestion | AIinterview/src/pages/CoreCSQuestionnaire.jsx:179 | The clicked question becomes current |
| CoreCsQuestionnaire.Session.Previous | AIinterview/src/pages/CoreCSQuestionnaire.jsx:213 | The index becomes the clamped previous index |
| CoreCsQuestionnaire.Session.Next | AIinterview/src/pages/CoreCSQuestionnaire.jsx:218-227 | Offered only before the last question; the index moves one forward |
| CoreCsQuestionnaire.Session.AnswerChange | AIinterview/src/pages/CoreCSQuestionnaire.jsx:59-61 | The current index's answer becomes the text; every other key is unchanged |
| CoreCsQuestionnaire.Session.FinalSubmit | AIinterview/src/pages/CoreCSQuestionnaire.jsx:63-65 | Offered only on the last question; moves to submitted |
| ContestMode.MatchFromSlice | AIinterview/src/pages/ContestMode.jsx:58 | Comparing character by character agrees with comparing the slice |
| ContestMode.ContainsFromOccurs | AIinterview/src/pages/ContestMode.jsx:58 | The scan finds `sub` exactly when it occurs at some position from k on |
| ContestMode.Contains | AIinterview/src/pages/ContestMode.jsx:58 | `includes` holds exactly when the text occurs at some position |
| ContestMode.IsHrTitle | AIinterview/src/pages/ContestMode.jsx:58 | A title leads to the HR screen exactly when "HR" occurs in it |
| ContestMode.OnlyLastTitleIsHr | AIinterview/src/pages/ContestMode.jsx:24-28 | Of the five round titles, only the fifth contains "HR" |
| ContestMode.TechDone | AIinterview/src/pages/ContestMode.jsx:70 | `slice(0, 4).every(completed)`: the first four rounds are all completed |
| ContestMode.UnlockHr | AIinterview/src/pages/ContestMode.jsx:69-73 | A locked HR round becomes not started iff the technical rounds are done; with the technical rounds not done, or HR not locked, the rounds are unchanged; the technical rounds are never changed; only the HR round's status can change |
| ContestMode.CompleteTechnical | AIinterview/src/pages/ContestMode.jsx:65-77 | The round becomes completed; the other technical rounds are unchanged; no completed round reverts; titles are kept |
| ContestMode.CompleteTechnicalGating | AIinterview/src/pages/ContestMode.jsx:69-73 | A locked HR round leaves `locked` iff all four technical rounds are then completed; an unlocked HR round is left as it is |
| ContestMode.CompleteTechnicalIdempotent | AIinterview/src/pages/ContestMode.jsx:65-77 | Completing the same round twice gives the rounds of completing it once |
| ContestMode.GatingScenario | AIinterview/src/pages/ContestMode.jsx:23-29 | From the initial rounds, three completed technical rounds leave HR locked, and the fourth unlocks it |
| ContestMode.RecordingClock | AIinterview/src/pages/ContestMode.jsx:223 | The recording clock starts as "2:00" and ends as "0:00" |
| ContestMode.Draw | AIinterview/src/pages/ContestMode.jsx:41 | `floor(random * 5) + base` lies in base..base + 4 |
| ContestMode.FinalScores | AIinterview/src/pages/ContestMode.jsx:40-46 | Each category in 15..19, github in 14..18 |
| ContestMode.Sum | AIinterview/src/pages/ContestMode.jsx:48 | The left fold `reduce((a, b) => a + b, 0)` agrees with the right fold: the first value plus the fold of the rest |
| ContestMode.SumOfFive | AIinterview/src/pages/ContestMode.jsx:48 | The left fold over five values is their sum |
| ContestMode.TotalScore | AIinterview/src/pages/ContestMode.jsx:48 | `totalScore` is the sum of the five category scores |
| ContestMode.SumBetween | AIinterview/src/pages/ContestMode.jsx:48 | A sum of pointwise bounded values lies between the sums of the bounds |
| ContestMode.TotalScoreBounds | AIinterview/src/pages/ContestMode.jsx:48 | The total lies in 74..94, never above 100 |
| ContestMode.Board | AIinterview/src/pages/ContestMode.jsx:315-320 | The five literal rows, whose `rank` fields are 1..5 (the page displays the sorted position i + 1 instead, jsx:324): rivals scoring 94, 91, 84 and 80; only row 3, "YOU" with the total, is highlighted, and no other row is named "YOU" |
| ContestMode.Insert | AIinterview/src/pages/ContestMode.jsx:321 | Inserting a row makes the list one longer (what it keeps, order and ties: the lemmas below) |
| ContestMode.InsertPermutes | AIinterview/src/pages/ContestMode.jsx:321 | Insertion adds the row and loses none |
| ContestMode.InsertAtMost | AIinterview/src/pages/ContestMode.jsx:321 | Inserting a row keeps every score at or below an upper bound that the row also respects |
| ContestMode.InsertSorted | AIinterview/src/pages/ContestMode.jsx:321 | Insertion keeps rows in non-increasing score order |
| ContestMode.InsertWithScore | AIinterview/src/pages/ContestMode.jsx:321 | The inserted row goes ahead of every row with its own score; the rows of any other score are unchanged |
| ContestMode.SortByScoreDesc | AIinterview/src/pages/ContestMode.jsx:321 | Sorting keeps the number of rows (contents, order and stability: the lemmas below) |
| ContestMode.SortPermutes | AIinterview/src/pages/ContestMode.jsx:321 | Sorting keeps exactly the rows it was given |
| ContestMode.SortSorted | AIinterview/src/pages/ContestMode.jsx:321 | The sorted rows are in non-increasing score order |
| ContestMode.SortStable | AIinterview/src/pages/ContestMode.jsx:321 | The sort is stable: for every score, the rows with that score come out in the order they went in |
| ContestMode.LeaderboardSorted | AIinterview/src/pages/ContestMode.jsx:315-321 | The leaderboard is a permutation of the five rows in non-increasing score order, and it contains the candidate's row |
| ContestMode.SortTieOrder | AIinterview/src/pages/ContestMode.jsx:321 | With two rows tied at 94, the later one moves up to right after the earlier one |
| ContestMode.LeaderboardTie | AIinterview/src/pages/ContestMode.jsx:315-321 | With a total of 94, the order is Akash, YOU, Shaurya |
| ContestMode.Contest.constructor | AIinterview/src/pages/ContestMode.jsx:21-34 | Overview step, index 0, the five initial rounds (HR locked), not recording, no audio, 120 seconds |
| ContestMode.Contest.StartContest | AIinterview/src/pages/ContestMode.jsx:51 | Overview moves to the round matrix |
| ContestMode.Contest.EnterRound | AIinterview/src/pages/ContestMode.jsx:53-63 | A locked round changes nothing; otherwise the round becomes current and the step is the HR screen iff its title contains "HR", else the technical screen; the HR screen is reached only for an unlocked fifth round |
| ContestMode.Contest.CompleteTechnicalRound | AIinterview/src/pages/ContestMode.jsx:65-77 | The rounds become those of completing the current round under the unlock rule; no completed round reverts; back to the matrix |
| ContestMode.Contest.StartRecording | AIinterview/src/pages/ContestMode.jsx:80-103 | Recording starts iff the microphone is granted; a refusal changes nothing |
| ContestMode.Contest.Tick | AIinterview/src/pages/ContestMode.jsx:97-99 | While recording, one tick applies the clamped tick to the recording time |
| ContestMode.Contest.StopRecording | AIinterview/src/pages/ContestMode.jsx:105-112 | Does nothing unless recording; otherwise stops, and the recorded audio becomes available |
| ContestMode.Contest.ReRecord | AIinterview/src/pages/ContestMode.jsx:264 | The audio is cleared and the time is reset to 120 |
| ContestMode.Contest.SubmitHRRound | AIinterview/src/pages/ContestMode.jsx:114-119 | The HR round is completed, every round is then completed, and the step is the final screen |
| ContestMode.Contest.ViewLeaderboard | AIinterview/src/pages/ContestMode.jsx:295 | The final screen moves to the leaderboard; the rounds are unchanged |
| ContestMode.Contest.ReInitialize | AIinterview/src/pages/ContestMode.jsx:335 | Only the step changes, back to the overview; the rounds keep their statuses |

## Left out

- Browser media: `getUserMedia`, `MediaRecorder`, `Blob` and object URLs are foreign calls. `Contest.StartRecording` takes the microphone's answer as `granted`. A refusal shows an alert, which is not modelled.
- ContestMode.Contest.StopRecording: the recorder's `onstop` callback, which sets the audio URL later, is folded into the stop itself. The model does not capture the moment between stopping and the audio arriving.
- The previous audio URL is never revoked on Re-Record. The model claims nothing about it.
- Timers: the scheduling and clearing of `setInterval`/`setTimeout` are left out. Their callbacks are explicit methods (`Tick`, `CompleteSubmit`, `CompleteGeneration`) that the environment calls. Nothing happens when a countdown reaches zero.
- Randomness:
  - `Math.random()` results are parameters in [0, 1) (`ContestMode.Draws`).
  - The scores are not part of the contest page's state. `FinalScores` gives them for any draws.
  - When the memoised scores are drawn again (their dependency is the test `step === "completed"`) is not modelled.
  - The decorative recording bars are left out.
- Floating point: scores are Dafny `real`s, so NaN and rounding are not modelled. The growth delta with `toFixed` and the percentage bar widths on the result page are display-only and left out.
- InterviewResult.Resolve: a passed-in result is a complete record. A partial `location.state` object, with fields missing, is not modelled.
- `Number.prototype.toString` is modelled for whole non-negative numbers only, which is all the timers display.
- JSX, styling, `alert` calls, routing (`useNavigate`, `useLocation`) and the DOM file-input `.click()` are left out.
- `HomePage.jsx` and `InterviewSelection.jsx` contain only markup and navigation, and are not part of this model.

## Findings

| source | as written | input that shows it | evidently intended | confidence | as-written member | corrected member |
|---|---|---|---|---|---|---|
| AIinterview/src/pages/CoreCSQuestionnaire.jsx:39-40 | The duplicate check looks for the raw input among the selected topics, but the trimmed input is what gets appended | "DBMS" selected, input "DBMS " and Enter: "DBMS" is selected twice | Check the trimmed text, so a topic is never selected twice | not executed | CoreCsQuestionnaire.AsWrittenSelectsDuplicate | CoreCsQuestionnaire.AddCustomTopic |
