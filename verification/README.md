# Study-group web app: state rules in Dafny

This project models the state rules of a Next.js study-group site: its core is
the attendance toggle of the main page, around which sit the study registry,
the month calendar, the login/signup/forgot-password modals and the form
handlers of the content pages. Every handler is written as a pure function
from the page state (and whatever the browser, the clock or the server would
have supplied) to the next page state, plus the remote request it would issue.
HTTP calls are not performed: the attendance toggle returns the one `join` or
`unjoin` request it would send, the signup handler returns the registration
request and takes its outcome as an input.

Modules, one per source file or shared concept:

- `Wrappers`, `Seqs`: `Option`, and the order-preserving subsequence relation.
- `Text`: JavaScript `trim`, the "blank after trim" guard, `split` and `join`
  on one character, the comma-separated tag parser, ASCII case mapping and the
  `/\s+/g` to `-` rewrite.
- `StudyRegistry`: `StudyContext`'s list operations, the selection left by
  the initial fetch, and `openStudyDetailPopup`.
- `Attendance`: the main page's on/off attendance toggle, the selections
  seeded from the user's joined studies, and the calendar study-day lookup.
- `Calendar`: the 42-cell month grid, month navigation and day-cell style
  priority, with the `Date` constructor's month normalisation and two-digit
  year rule.
- `AuthModals`, `Signup`: the three mutually exclusive modal flags, hash
  routing, the forgot-password step machine and the signup submit/close.
- `StudyPage`, `Schedule`: the study page and the project schedule page.
- `Uploads`, `Posts`, `InfoShare`, `Community`, `CodeShare`: the image
  lists and the post submit rules of the three board pages.

The attendance rules are those of `app/page.tsx:119-157`. Pressing "attend"
after "skip" sends a `join` without incrementing the count, because line 138
guards the increment with `currentSelection !== 'skip'`. Pressing an active
"skip" again sends no request at all. `Attendance.SkipThenAttendUncounted` and
`Attendance.StepRequestMatchesSelection` state these two behaviours.

## Model

| member | source | states |
|---|---|---|
| Text.Trim | app/info-share/page.tsx:124 | The result has no whitespace at either end, and it is obtained by dropping only whitespace (JavaScript's WhiteSpace and LineTerminator set) from the front and back. |
| Text.WhitespaceSet | app/info-share/page.tsx:124 | `trim` strips the no-break space, the byte-order mark and the Unicode line and ideographic separators, but not the zero-width space, U+180E or the next-line control. |
| Text.BlankIffAllSpace | app/info-share/page.tsx:124 | `!s.trim()` holds exactly when every character of `s` is whitespace. |
| Text.TrimIdempotent | app/info-share/page.tsx:124 | Trimming twice gives the same result as trimming once. |
| Text.Split | app/info-share/page.tsx:131 | `split` on one character gives at least one piece. |
| Text.PiecesAvoidSeparator | app/info-share/page.tsx:131 | No piece of a split contains the separator. |
| Text.JoinOfSplit | app/info-share/page.tsx:131 | Joining the pieces of a split with the same separator gives back the input. |
| Text.SplitOfJoin | app/info-share/page.tsx:131 | Splitting a join of separator-free pieces gives back exactly those pieces. |
| Text.TrimNonEmpty | app/info-share/page.tsx:131 | There are no more kept tags than pieces. |
| Text.KeptTagsClean | app/info-share/page.tsx:131 | Every kept tag is non-empty and has no whitespace at either end. |
| Text.NonBlankPiecesKept | app/info-share/page.tsx:131 | Every piece that is non-blank after trimming is among the kept tags. |
| Text.KeptCounts | app/info-share/page.tsx:131 | Each non-empty trimmed piece is kept exactly as many times as it occurs among the pieces, and the empty string is never kept. |
| Text.TagsFollowInputOrder | app/info-share/page.tsx:131 | The kept tags are an order-preserving subsequence of the trimmed pieces. |
| Text.ParseTags | app/info-share/page.tsx:131 | Every parsed tag is non-empty, equal to its own trim, and free of commas. |
| Text.ParseTagsInInputOrder | app/info-share/page.tsx:131 | The tags are an order-preserving subsequence of the trimmed comma-separated pieces. Every non-blank piece appears among them, each exactly as many times as it occurs, and no empty tag appears. |
| Text.ParseTagsOfJoin | app/community/page.tsx:94 | A list of clean tags written comma-separated parses back to the same list. |
| Text.ToLower | app/schedule/page.tsx:121 | Lower-casing keeps the length, moves every ASCII capital to its small letter (code point + 32), changes no other character, and keeps whitespace where it was. |
| Text.ToUpper | app/schedule/page.tsx:335-336 | Upper-casing keeps the length, moves every ASCII small letter to its capital (code point - 32), and changes no other character. |
| Text.CollapseSpaces | app/schedule/page.tsx:121 | Replacing whitespace runs by `-` never lengthens the string and leaves no whitespace. |
| Text.CollapseOfSpacedWords | app/schedule/page.tsx:121 | Non-empty words separated by single spaces come out separated by single dashes. |
| Text.CollapseOfWordsAndRuns | app/schedule/page.tsx:121 | A string made of words with whitespace runs of any kind and length before, between and after them keeps its words, and each non-empty run becomes exactly one dash. |
| StudyRegistry.MergeIdempotent | app/context/StudyContext.tsx:79-83 | Merging the same partial record twice equals merging it once, and the empty patch changes nothing. |
| StudyRegistry.UpdateStudy | app/context/StudyContext.tsx:79-83 | `updateStudy` keeps length and order, merges the patch into the entries with the id, and leaves every other entry unchanged. |
| StudyRegistry.UpdateOfUnknownId | app/context/StudyContext.tsx:79-83 | Updating an id no study carries changes nothing. |
| StudyRegistry.UpdateIdempotent | app/context/StudyContext.tsx:79-83 | Applying the same update twice equals applying it once. |
| StudyRegistry.AddStudy | app/context/StudyContext.tsx:85-87 | `addStudy` grows the list by one, with the new study last and the old list as an unchanged prefix. |
| StudyRegistry.RemoveStudy | app/context/StudyContext.tsx:89-91 | After `removeStudy` no study carries the id, every other study is kept, nothing new appears, and relative order is preserved. |
| StudyRegistry.RemoveStudyCounts | app/context/StudyContext.tsx:89-91 | `removeStudy` keeps every study with another id exactly as many times as the list holds it, and none with the id. |
| StudyRegistry.RemoveOfAbsentId | app/context/StudyContext.tsx:89-91 | Removing an id no study carries changes nothing. |
| StudyRegistry.RemoveIdempotent | app/context/StudyContext.tsx:89-91 | Removing the same id twice equals removing it once. |
| StudyRegistry.RemoveAfterAdd | app/context/StudyContext.tsx:85-91 | Adding a study and then removing its id equals just removing that id. |
| StudyRegistry.FindById | app/page.tsx:120 | `find` by id returns nothing exactly when no study has the id, and otherwise returns the first study that has it. |
| StudyRegistry.ApplyFetch | app/context/StudyContext.tsx:36-58 | After a successful fetch the list is the fetched data, and the selection is the first study's id (unchanged if the data is empty). After a failure the list is empty and the selection is 0. |
| StudyRegistry.FetchFromInitial | app/context/StudyContext.tsx:36-58 | From the provider's initial state, the selection after the fetch is the first fetched id, or 0. |
| StudyRegistry.OpenStudyDetailPopup | app/context/StudyContext.tsx:93-95 | `openStudyDetailPopup` sets the selected study and changes nothing else. |
| StudyRegistry.LastOpenWins | app/context/StudyContext.tsx:93-95 | Of two openings in a row the last one decides the selection, and the list is untouched. |
| Attendance.Cap | app/page.tsx:139 | The `maxParticipants` fallback: a missing or zero maximum means 50, and any other value is kept. |
| Attendance.Step | app/page.tsx:123-148 | The six cases of the on/off toggle, each with its new selection, new count and request kind. Attend from unset gives a clamped increment and a join. Attend from skip gives a join with the count kept. Attend again turns it off, with a floored decrement and an unjoin. Skip from attend gives a floored decrement and an unjoin. Skip from unset gives an unjoin. Skip again turns it off with no request. |
| Attendance.HandleAttendance | app/page.tsx:119-157 | An unknown id changes nothing and issues nothing. Otherwise only the selection for the id and the count of the studies carrying that id change, and the request is the one the toggle prescribes, addressed to that id. |
| Attendance.StepKeepsCountInRange | app/page.tsx:130-147 | A count within 0..cap stays within 0..cap after any press. |
| Attendance.StepRequestMatchesSelection | app/page.tsx:127-147 | A join is issued exactly when the user ends up attending. No request is issued exactly when an active skip is pressed again. The new selection is "off" when the same button is pressed again, and otherwise the pressed action. |
| Attendance.AttendTwiceRestores | app/page.tsx:127-141 | Pressing attend twice from unset below the cap restores the count, sending a join and then an unjoin. |
| Attendance.AttendAtCapStillJoins | app/page.tsx:139-141 | At or above the cap, attending from unset moves the count to the cap and still sends a join. |
| Attendance.SkipThenAttendUncounted | app/page.tsx:136-146 | Skip followed by attend ends attending with the count unchanged, while a direct attend would have added one. |
| Attendance.ToggleTouchesOneStudy | app/page.tsx:151-156 | With unique ids a toggle changes at most one study, and only its participant count. |
| Attendance.ToggleKeepsCountsInRange | app/page.tsx:139-147 | With unique ids, if every count lies between 0 and its cap (`maxParticipants \|\| 50`) before a toggle, it still does after, so a study without a maximum never shows more than 50. |
| Attendance.InitialSelections | app/page.tsx:31-49 | For a logged-in user with joined studies, the selection map is replaced by exactly `id -> attend` for each joined id. Otherwise the previous map is kept. |
| Attendance.SeededSelectionLookup | app/page.tsx:31-49 | After seeding, the joined studies read as attending and every other study reads as unset. |
| Attendance.StudiesForDate | app/page.tsx:202-212 | A date on the fixed study-day list gets every study, and any other date gets none. |
| Attendance.HasStudyOnDate | app/page.tsx:215-217 | A date has a study exactly when it is a fixed study day and the list is non-empty. |
| Calendar.MakeMonth | app/page.tsx:220-226 | The `Date` constructor's month normalisation: the result is a valid month, and its linear month index equals year·12 + month (two-digit years read as 19xx). |
| Calendar.DaysIn | app/page.tsx:231-232 | A month has 28 to 31 days, and February has 29 exactly in Gregorian leap years. |
| Calendar.LastDayBefore | app/page.tsx:231-232 | `new Date(y, m, 0).getDate()` is between 28 and 31. |
| Calendar.LastDayBeforeSpansGap | app/page.tsx:231-232 | `new Date(y, m, 0).getDate()` equals the number of days from the 1st of the month before to the 1st of month m. |
| Calendar.DaysToFirstStep | app/page.tsx:230-232 | The 1st of the next month comes exactly as many days after the 1st of this month as this month has days. |
| Calendar.MarchYearLength | app/page.tsx:231-232 | The March-to-February year that ends in year y's February has 366 days exactly when y is a Gregorian leap year, and 365 otherwise. |
| Calendar.FirstWeekday | app/page.tsx:230-233 | The weekday of the 1st is in 0..6. |
| Calendar.FirstWeekdayStep | app/page.tsx:230-233 | The next month's 1st falls on this month's first weekday advanced by this month's length, modulo 7. |
| Calendar.FirstWeekdayExamples | app/page.tsx:230-233 | The weekday computation agrees with known dates: 1970-01-01 was a Thursday, 2000-01-01 a Saturday, 2024-12-01 a Sunday. |
| Calendar.FillGrid | app/page.tsx:236-267 | The three loops produce exactly 42 cells. The leading cells count up to the given length, the month's days follow flagged current, and the trailing cells run 1, 2, ..., of which there are always at least 5. |
| Calendar.GenerateCalendarDays | app/page.tsx:229-268 | The grid as written: `firstDayOfWeek` leading cells, the month, and at least five trailing cells in 42, with the last leading cell equal to the last day of month m - 2. |
| Calendar.LeadingCellsUseWrongMonth | app/page.tsx:238 | For March 2024 there are five leading cells. As written they count down from 31 (January), while February 2024 has 29 days. |
| Calendar.GenerateCalendarDaysCorrected | app/page.tsx:238-247 | With the previous month's real length, the leading cells are exactly the last days of the previous month. |
| Calendar.GoToPrevMonth | app/page.tsx:220-222 | The previous month is a valid month one step before the current one in linear month order. |
| Calendar.GoToNextMonth | app/page.tsx:224-226 | The next month is a valid month one step after the current one in linear month order. |
| Calendar.NavigationRoundTrip | app/page.tsx:220-226 | Away from the two-digit years, next undoes previous and previous undoes next. |
| Calendar.NavigationTwoDigitYearJump | app/page.tsx:220-226 | Going back from January of year 100 gives December 99, which the next step reads as 1999, so forward lands in January 2000. |
| Calendar.DayStyleOf | app/page.tsx:317-338 | The day-cell style, given as both directions for each class: today, then another month, then Sunday, then Saturday, then weekday. |
| AuthModals.OpenLogin | app/context/AuthContext.tsx:32-36 | Opening login shows login and hides the other two. |
| AuthModals.CloseLogin | app/context/AuthContext.tsx:38-40 | Closing login clears only the login flag. |
| AuthModals.OpenSignup | app/context/AuthContext.tsx:42-46 | Opening signup shows signup and hides the other two. |
| AuthModals.CloseSignup | app/context/AuthContext.tsx:48-50 | Closing signup clears only the signup flag. |
| AuthModals.OpenForgot | app/context/AuthContext.tsx:52-56 | Opening forgot-password shows it and hides the other two. |
| AuthModals.CloseForgot | app/context/AuthContext.tsx:58-60 | Closing forgot-password clears only its flag. |
| AuthModals.ApplyKeepsAtMostOne | app/context/AuthContext.tsx:32-60 | Each of the six operations keeps at most one modal open. |
| AuthModals.ReachableAtMostOne | app/context/AuthContext.tsx:32-60 | Any sequence of operations from a state with at most one modal open keeps at most one open. |
| AuthModals.InitialReachableAtMostOne | app/context/AuthContext.tsx:28-60 | Every state reachable from the all-closed start has at most one modal open. |
| AuthModals.OpenIdempotentAndOpenCloseClears | app/context/AuthContext.tsx:32-60 | Every open is idempotent, and opening then closing the same modal leaves all three closed. |
| AuthModals.RouteHash | app/components/AuthModals.tsx:40-49 | `#login`, `#signup` and `#forgot-password` open their modal, and any other hash changes nothing. |
| AuthModals.RouteHashKeepsAtMostOne | app/components/AuthModals.tsx:40-49 | Hash routing keeps at most one modal open. |
| AuthModals.SubmitForgot | app/components/AuthModals.tsx:61-72 | At step 1 a blank email stays at step 1, and a non-blank email moves to step 2. At step 2 nothing changes. The email and modal flags are always kept. |
| AuthModals.SubmitWhitespaceEmailStays | app/components/AuthModals.tsx:63-67 | A whitespace-only email never leaves step 1. |
| AuthModals.CloseForgotPassword | app/components/AuthModals.tsx:55-59 | Closing clears the forgot-password flag, empties the email and returns to step 1, leaving the other flags alone. |
| AuthModals.CloseForgetsSubmit | app/components/AuthModals.tsx:55-72 | Closing forgets an earlier submit. The blank email it leaves is refused by the next submit, and closing twice is closing once. |
| AuthModals.Resend | app/components/AuthModals.tsx:173 | The resend button returns to step 1 and keeps the email. |
| AuthModals.ResendUndoesSubmit | app/components/AuthModals.tsx:61-72 | After a successful submit, resend restores exactly the state before the submit. |
| Signup.HandleSignupSubmit | app/components/auth/SignupModal.tsx:28-62 | A password mismatch issues nothing and changes nothing. Otherwise the request carries exactly name, email, password and phone number, the token is stored only on success, and whatever the outcome the modal closes and the form is cleared. |
| Signup.TokenOnlyOnSuccess | app/components/auth/SignupModal.tsx:50-53 | The stored token changes only through a successful registration, and then to that response's token. |
| Signup.RequestIffPasswordsMatch | app/components/auth/SignupModal.tsx:31-44 | A request is issued exactly when the password and its confirmation agree. |
| Signup.HandleCloseSignup | app/components/auth/SignupModal.tsx:64-67 | Closing clears all five fields and the signup flag, and touches nothing else. |
| Signup.SubmitEndsAsClose | app/components/auth/SignupModal.tsx:31-67 | A submit with matching passwords ends exactly where closing would, apart from the stored token, and closing twice is closing once. |
| StudyPage.HandleAttendance | app/study/page.tsx:60-75 | An unknown id changes nothing. Otherwise the pressed action is recorded, whatever was there before, and the study's own participant list is written back. |
| StudyPage.AttendanceKeepsStudies | app/study/page.tsx:70-74 | With unique ids, attendance on this page never changes the studies, because the computed count is discarded. |
| StudyPage.PressingTwiceKeepsSelection | app/study/page.tsx:60-75 | For any listed id, whatever the other entries, pressing the same button again keeps the selection and changes nothing, so there is no toggle back to unset. |
| StudyPage.HandleAddStudy | app/study/page.tsx:78-106 | A blank study name or description changes nothing. A valid add leaves the study list unchanged, resets the form to its defaults and closes the modal. |
| StudyPage.AddStudyTwiceAddsOnce | app/study/page.tsx:78-106 | The form is back at its blank default after an add, so adding again at once changes nothing. |
| StudyPage.WhitespaceNameRefused | app/study/page.tsx:80 | A whitespace-only study name is refused. |
| StudyPage.CurrentStudy | app/study/page.tsx:52 | The current study is the one with the selected id if there is one, otherwise the first study. There is none only when the list is empty. |
| StudyPage.ApplyPopupParam | app/study/page.tsx:31-37 | A non-empty `popup` parameter naming a listed study opens its popup and selects it. Any other parameter changes nothing. |
| StudyPage.PopupSelectsCurrent | app/study/page.tsx:31-37 | After the popup opens from the URL, the current study is the one the parameter names. |
| StudyPage.CloseStudyDetailPopup | app/study/page.tsx:108-111 | Closing the popup clears its flag and id and leaves everything else, including the selection. |
| StudyPage.PopupOpenThenClose | app/study/page.tsx:31-37 | Opening from the URL and then closing keeps the selected study and otherwise ends as a plain close. |
| Schedule.Put | app/schedule/page.tsx:124-127 | `{...prev, [key]: p}` maps the key to the project. A new key goes last in key order, and an existing key keeps its place. |
| Schedule.PutKeepsWellFormed | app/schedule/page.tsx:124-127 | Adding a project keeps the key order listing every key exactly once. |
| Schedule.Slug | app/schedule/page.tsx:121 | The slug is no longer than the name and contains no whitespace and no capital letter. |
| Schedule.SlugOfSpacedWords | app/schedule/page.tsx:121 | Lower-case words separated by single spaces slug to the same words joined by dashes. |
| Schedule.SlugOfWordsAndRuns | app/schedule/page.tsx:121 | A lower-case name of words and whitespace runs of any kind and length, leading and trailing runs included, slugs to its words with one dash for every run. |
| Schedule.SlugLowers | app/schedule/page.tsx:121 | A name and its lower-case form have the same slug. |
| Schedule.SlugOfMyApp | app/schedule/page.tsx:121 | "My App" slugs to "my-app". |
| Schedule.SlugOfDoubleSpace | app/schedule/page.tsx:121 | A run of two spaces becomes one dash: "a  b" slugs to "a-b". |
| Schedule.SlugOfTab | app/schedule/page.tsx:121 | A tab becomes a dash: "a\tb" slugs to "a-b". |
| Schedule.SlugOfLeadingSpace | app/schedule/page.tsx:121 | A leading space is kept as a leading dash: " a" slugs to "-a". |
| Schedule.Repository | app/schedule/page.tsx:121 | A given repository is kept. An empty one becomes the team URL prefix followed by the slug of the name, which holds no whitespace. |
| Schedule.NewProject | app/schedule/page.tsx:113-122 | A new project keeps the form's name, description and status, has team `['프로젝트 매니저']` and progress 0, and its tech is the parsed tag list. Empty dates default to today and today + 90 days. Its repository is the one `Schedule.Repository` derives from the form. |
| Schedule.TechRoundTrip | app/schedule/page.tsx:115 | A tech list written as comma-separated clean names is stored as exactly those names. |
| Schedule.HandleAddProject | app/schedule/page.tsx:107-140 | A blank name or description changes nothing. Otherwise the project is stored under the new id and that id is selected, the modal closes, the form resets, and the popup is untouched. |
| Schedule.AddProjectAddsOneKey | app/schedule/page.tsx:124-139 | With a fresh id an add brings exactly one new key, listed last, keeps every other project, and keeps the table well formed. |
| Schedule.ApplyPopupParam | app/schedule/page.tsx:79-88 | A non-empty `popup` parameter naming a project opens its popup and selects it. Anything else changes nothing. |
| Schedule.CloseProjectDetailPopup | app/schedule/page.tsx:95-104 | Closing the popup clears its flag and id and leaves everything else. |
| Schedule.PopupOpenThenClose | app/schedule/page.tsx:79-104 | Opening from the URL and then closing leaves only the selection changed. |
| Schedule.ProjectIcon | app/schedule/page.tsx:332-337 | The icon has at most two characters and no small letter. A name without spaces gives its first two characters upper-cased. |
| Schedule.IconOfWords | app/schedule/page.tsx:333-335 | For any two or more words split on single spaces, the icon is the upper-cased first characters of the first two words. An empty word, from a leading or doubled space, contributes nothing, because `word[0]` is `undefined` and joins as "". For two non-empty words the icon is exactly their two capital initials. |
| Schedule.IconOfLeadingSpace | app/schedule/page.tsx:333-335 | " a" gets the icon "A": the empty first word adds nothing. |
| Schedule.IconOfDoubleSpace | app/schedule/page.tsx:333-335 | "a  b" gets the icon "A": the second word is empty, and the third is never looked at. |
| Schedule.ProjectColor | app/schedule/page.tsx:340-350 | The colour is always one of the six gradients, and the first six indices take them in order. |
| Schedule.ColorPeriodic | app/schedule/page.tsx:340-350 | Colours repeat with period 6. |
| Schedule.IndexOf | app/schedule/page.tsx:374 | `indexOf` of a present key is its first position. |
| Schedule.ColorStableUnderPut | app/schedule/page.tsx:124-127 | Adding a project never changes the colour of a project already listed. |
| Schedule.StatusText | app/schedule/page.tsx:364-372 | The four status codes get their fixed labels, and any other input is shown unchanged. |
| Schedule.StatusTextIdempotent | app/schedule/page.tsx:364-372 | Labelling a label changes nothing more. |
| Schedule.StatusLabelsDistinct | app/schedule/page.tsx:364-372 | Different statuses get different labels. |
| Uploads.AppendFiles | app/info-share/page.tsx:105-113 | The picked files follow the existing ones in order, and with no file list nothing changes. |
| Uploads.RemoveImage | app/info-share/page.tsx:115-120 | Exactly the element at the index is removed. An out-of-range index leaves the list unchanged. |
| Uploads.RemoveUndoesSingleUpload | app/info-share/page.tsx:105-120 | Removing the image just uploaded restores the list from before the upload. |
| Posts.ObjectUrls | app/info-share/page.tsx:135 | One object URL per file, in file order. |
| Posts.NewPost | app/info-share/page.tsx:126-137 | A new post has id `now`, no comments or likes, author `사용자`, age label `방금 전`, the form's title, content and category, the parsed tags (all clean), and one object URL per picked image. |
| Posts.NewPostTagsRoundTrip | app/community/page.tsx:94 | Clean tags typed comma-separated are stored on the new post as exactly those tags. |
| Posts.SubmitPost | app/info-share/page.tsx:122-142 | A blank title or content changes nothing. Otherwise exactly one new post goes in front of the unchanged old posts, the form resets to the board's default category, and the panel closes. |
| Posts.SubmitTwiceAddsOnce | app/info-share/page.tsx:122-142 | The form is blank after a post, so posting again at once adds nothing more. |
| Posts.UploadImages | app/community/page.tsx:68-76 | Upload on a post form appends the picked files and changes no other form field. |
| Posts.RemoveFormImage | app/community/page.tsx:78-83 | Remove on a post form drops exactly that image, or nothing when out of range, and changes no other form field. |
| InfoShare.HandleSubmit | app/info-share/page.tsx:122-142 | The info-share submit: on a valid form the new post with the form's category, no comments and no likes heads the old posts, and the form resets with category `스터디 카페`. |
| InfoShare.PostsIn | app/info-share/page.tsx:147 | Category filtering keeps only posts of the category, keeps every post of the category, and preserves order. |
| InfoShare.PostsInCounts | app/info-share/page.tsx:147 | Category filtering keeps each post of the category exactly as many times as the board holds it, and no other post. |
| InfoShare.FilteredPosts | app/info-share/page.tsx:145-147 | `전체` shows every post. Any other category shows exactly its posts, each as many times as the board holds it, as an order-preserving subsequence. |
| InfoShare.SubmitThenFilter | app/info-share/page.tsx:122-147 | After a valid submit, the filtered list of the new post's category is the new post followed by the old filtered list. |
| InfoShare.SelectCategoryFromUrl | app/info-share/page.tsx:23-30 | Any non-empty `filter` parameter becomes the selected category, listed or not, and otherwise the selection is kept. |
| InfoShare.UrlFilterShowsCategory | app/info-share/page.tsx:23-30 | Opened with a `filter` naming a category, the board shows exactly that category's posts, with their multiplicities. With `전체` it shows every post. |
| Community.HandleSubmit | app/community/page.tsx:85-105 | A blank title or content changes nothing. A valid submit puts one post in front of the unchanged old posts. The post is by `사용자`, has no comments or likes, and is stamped with `Date.now()` and `방금 전`. It keeps the form's title, content and category, its parsed tags, and one object URL per picked image. The form is reset with category `자유게시판`. |
| CodeShare.HandleSubmit | app/code-share/page.tsx:80-101 | Nothing changes unless title, description and code are all non-blank. A valid submit puts one snippet in front of the unchanged old ones. The snippet has no likes or downloads and is stamped with `Date.now()` and `방금 전`. It keeps the form's title, description, code and language, its parsed tags, and its object URLs. The form is reset to language `javascript`. |
| CodeShare.WhitespaceCodeRefused | app/code-share/page.tsx:82 | Whitespace-only code is refused even when the other fields are filled. |
| CodeShare.SubmitTwiceAddsOnce | app/code-share/page.tsx:80-101 | The form is blank after a submit, so submitting again at once adds nothing more. |
| CodeShare.HandleImageUpload | app/code-share/page.tsx:63-71 | Upload appends the picked files after the existing ones and changes no other field. |
| CodeShare.HandleRemoveImage | app/code-share/page.tsx:73-78 | Remove drops exactly that image, or nothing when out of range, and changes no other field. |

## Left out

- HTTP: `handleJoin`/`handleUnjoin` (app/page.tsx:270-314), `fetchStudies` and `fetchParticipants`, and the signup POST are not performed. The toggle returns the request it would send. The fetch and registration outcomes are inputs. `fetchParticipants` and the `participants` state it fills are not modelled. The `window.location.reload()` calls cannot be modelled as state.
- Clock: `Date.now()` ids, the `new Date()` default dates and the `toISOString` day key are parameters (`now`, `projectId`, `today`, `in90Days`, `dateKey`). UTC/local-time differences are not modelled.
- Browser APIs: `localStorage` is a stored-token field. `URL.createObjectURL` is a function the caller supplies, so the model gives the same URL for the same file, while the browser mints a fresh one per call. `alert`, `console.log`, `window.history`, the `hashchange` listener registration and the `MutationObserver` dark-mode detection are foreign side effects.
- Presentation: Tailwind class strings (reduced to an enum in `Calendar.DayStyleOf`), `getStatusStyle`, dark-mode and mobile-menu toggles, and JSX rendering. The header, the quick-action, content, project and calendar sections, the client wrapper, the my page, the login modal and the static studies route are not modelled: they hold no state rules.
- Fixture data: the hard-coded posts, snippets and seed projects of the pages are not modelled. The handlers take any list.
- Attendance.HandleAttendance: selections are keyed by the numeric id, while the page keys them by the id string and finds the study with `Number(studyId)`. Strings such as "01" and "1" are different keys in the page but one key here. An id that is not a number is not modelled.
- Calendar.GenerateCalendarDays: each cell keeps the `(year, month, day)` arguments its `Date` is built from. The day normalisation `new Date` applies to them is not computed, and no `Date` value is compared.
- Calendar.FirstWeekday: computed in the proleptic Gregorian calendar, without the time-zone offset a local `Date` carries.
- Text.ToUpper: ASCII letters only. Full Unicode case mapping can change the length (for example `ß` upper-cases to `SS`). So the two-character bound of `Schedule.ProjectIcon` holds for ASCII mapping only.
- Text.ToLower: ASCII letters only, for the same reason.
- Schedule.ProjectIcon: strings are modelled as sequences of Unicode scalar values, while JavaScript indexes UTF-16 code units. For a name such as "😀 App", `word[0]` in the page is a lone high surrogate, and `name.slice(0, 2)` cuts the same way; the model takes the whole character instead.
- Schedule.ApplyPopupParam: `projectData[popup]` is also truthy for names inherited from `Object.prototype` (such as `constructor`). The model checks own keys only.
- Schedule.ProjectTable: key order is insertion order. JavaScript lists integer-like keys below 2^32 - 1 first, in numeric order. The `Date.now()` keys used here are larger than that, so this ordering is not modelled.
- StudyPage: ids are strings on this page, and the record shape is reused from the registry. The page's `.time` field and the context's numeric `selectedStudy` are not reconciled.
- The `joinedStudies`, `isLoggedIn` and `logout` fields that app/page.tsx reads from the auth context, which that context does not define, are taken as inputs.

## Findings

| source | as written | input that shows it | evidently intended | confidence | as-written member | corrected member |
|---|---|---|---|---|---|---|
| app/page.tsx:238 | `new Date(currentYear, currentMonth - 1, 0)` is the last day of month m - 2, and the leading cells count down from it | March 2024 (`currentMonth` = 2): five leading cells count down from January's 31, so they read 27..31, while February 2024 ends on the 29th | `new Date(currentYear, currentMonth, 0)`, the last day of the previous month, so the leading cells read 25..29 | high; not executed | Calendar.GenerateCalendarDays, Calendar.LeadingCellsUseWrongMonth | Calendar.GenerateCalendarDaysCorrected |
