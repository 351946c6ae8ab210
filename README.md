# Job-board client: form rules, filter state and display rules

A Dafny model of the logic inside a React job-board client for university
students. The model covers:

- the applicant-profile form: the two-digit student id and the year it
  becomes, the list of majors, the PDF résumé rule, the form check and the
  request sent on submit;
- the filter bar: position, category and domain toggles, resets, labels and
  the filters it applies;
- the constant option lists behind the filter bar;
- the texts shown by the profile tab, the post card, the bookmark card and
  the account page, and the bookmark button;
- the sign-up and sign-in pages and the request bodies they send.

Each page or component is one module. Pure helpers and labels are functions.
Component state that handlers update is a class whose fields the methods
reassign. Network calls, cookies and the clock are parameters: a token is an
`Option<string>`, a server reply is a `Result`, and random or date values
are given as numbers. JavaScript behaviour the code relies on is written out
in `text.dfy`: `trim`, `split(',')` (at least one piece), `join`,
`parseInt`, `toString`, `slice(-2)` and `padStart(2, '0')`. Truthiness of
optional strings and numbers is in `types.dfy`.

The main results:

- the profile form saves the student id "25" as 1925 (`StudentIdExample`);
- any integer year survives load-then-save exactly when it lies in
  1925..2024 (`StudentIdRoundTrip`);
- the filled-in majors of a valid, comma-free majors list survive the
  save-as-join, load-as-split round trip (`DepartmentRoundTrip`);
- the filter toggles keep the position and domain lists free of duplicates.

## Model

| member | source | states |
|---|---|---|
| Types.MakeSignUpRequestBody | src/types.ts:31-46 | the sign-up body is for an applicant in both `authType` and `info.type`, has success code `ok`, and carries name, e-mail and password unchanged |
| Types.MakeSignInRequestBody | src/types.ts:61-69 | the sign-in body carries e-mail and password unchanged |
| Types.ComposeEmail | src/pages/SignInPage.tsx:12-19 | `emailId + '@snu.ac.kr'` ends with the university domain, and the typed id is its prefix |
| Types.ComposeEmailInjective | src/pages/SignUpPage.tsx:10-17 | different e-mail ids give different addresses |
| Domains.DomainToKorean | src/domain.ts:12-32 | every one of the nine domains has a non-empty label |
| Domains.DomainToKoreanInjective | src/domain.ts:14-31 | no two domains share a label |
| Domains.DomainLabelExamples | src/domain.ts:14-31 | FINTECH is 핀테크, B2B is B2B, OTHERS is 기타 |
| Filters.CategoryOf | src/constants/filters.ts:4-21 | looking up a category key gives the category with that key |
| Filters.CategoriesDisjoint | src/constants/filters.ts:4-21 | no position type is in two categories |
| Filters.CategoriesCoverPositionTypes | src/constants/filters.ts:7-19 | the categories hold exactly the eight position types, none twice, and every caption is non-empty |
| Filters.DomainsListEachOnce | src/constants/filters.ts:23-33 | `DOMAINS` has no repeats and contains every domain |
| Filters.OrderOptionsDistinct | src/constants/filters.ts:35-38 | 0 is 최신순 and 1 is 마감일순; the values are distinct and no caption is empty or the placeholder |
| FilterBarComponent.Toggle | src/components/FilterBar.tsx:32-39 | toggling flips the value's membership, keeps every other value's membership, appends an absent value at the end, removes a present value everywhere, and keeps a duplicate-free list duplicate-free |
| FilterBarComponent.ToggleTwice | src/components/FilterBar.tsx:58-65 | toggling twice restores membership, and restores the very list when the value was absent |
| FilterBarComponent.CategoryToggle | src/components/FilterBar.tsx:41-56 | if all category values were selected, they are all removed; otherwise each appears exactly once, as the list's tail, after the kept positions. Other positions keep their counts, and a duplicate-free list stays duplicate-free |
| FilterBarComponent.FindCategory | src/components/FilterBar.tsx:85-87 | returns the first category containing the position, or none exactly when no category contains it |
| FilterBarComponent.PositionLabel | src/components/FilterBar.tsx:82-91 | no position gives the placeholder; one position gives its category's label, or the raw value outside all categories; several give the placeholder and the count |
| FilterBarComponent.DomainLabel | src/components/FilterBar.tsx:93-98 | no domain gives the placeholder, one gives its Korean name, several give the placeholder and the count |
| FilterBarComponent.CountLabelReadsBack | src/components/FilterBar.tsx:90-97 | the number inside a count label reads back as the number of selections |
| FilterBarComponent.StatusLabel | src/components/FilterBar.tsx:100-102 | 모집중 exactly when only active postings are selected, 전체 otherwise |
| FilterBarComponent.FindOrder | src/components/FilterBar.tsx:105 | returns an option with the given value, or none exactly when no option has it |
| FilterBarComponent.OrderLabel | src/components/FilterBar.tsx:104-107 | the placeholder appears exactly when no option has the order value; 0 reads 최신순 and 1 reads 마감일순 |
| FilterBarComponent.HasPositionFilter | src/components/FilterBar.tsx:27 | the position highlight is on exactly when a position is selected |
| FilterBarComponent.HasDomainFilter | src/components/FilterBar.tsx:28 | the domain highlight is on exactly when a domain is selected |
| FilterBarComponent.HasStatusFilter | src/components/FilterBar.tsx:29 | the status highlight is on exactly when only active postings are asked for |
| FilterBarComponent.HasOrderFilter | src/components/FilterBar.tsx:30 | the order highlight is on exactly when the order is not the default 0 |
| FilterBarComponent.NoFlagsIffReset | src/components/FilterBar.tsx:27-30 | all four highlight flags are off exactly for the reset state |
| FilterBarComponent.ToggleEmpties | src/components/FilterBar.tsx:32-39 | toggling a value of a duplicate-free list empties it exactly when the value was its only element |
| FilterBarComponent.FlagAfterToggle | src/components/FilterBar.tsx:27-28 | once a toggled state with no duplicate selections has been applied and comes back as the applied filters, the position (domain) highlight is off exactly when the toggled value was the only one selected; toggling alone changes only the temporary state, which the highlights do not read |
| FilterBarComponent.FilterBar.constructor | src/components/FilterBar.tsx:19-24 | the temporary state starts as the applied filters and every dropdown is closed |
| FilterBarComponent.FilterBar.ReceiveFilters | src/components/FilterBar.tsx:20 | a new prop replaces the applied filters and leaves the temporary state alone |
| FilterBarComponent.FilterBar.ToggleDropdown | src/components/FilterBar.tsx:116 | opening or closing one dropdown flips its flag only |
| FilterBarComponent.FilterBar.TogglePosition | src/components/FilterBar.tsx:32-39 | only the position list changes; the position's membership flips and no duplicate is introduced |
| FilterBarComponent.FilterBar.ToggleCategory | src/components/FilterBar.tsx:41-56 | only the position list changes, as the category toggle |
| FilterBarComponent.FilterBar.ToggleDomain | src/components/FilterBar.tsx:58-65 | only the domain list changes, and the domain's membership flips |
| FilterBarComponent.FilterBar.Reset | src/components/FilterBar.tsx:67-76 | the temporary state becomes the cleared state, and the same cleared state is applied |
| FilterBarComponent.FilterBar.Apply | src/components/FilterBar.tsx:78-80 | the temporary state is applied |
| FilterBarComponent.FilterBar.SelectStatus | src/components/FilterBar.tsx:228-243 | a status radio sets only `isActive` |
| FilterBarComponent.FilterBar.ResetStatus | src/components/FilterBar.tsx:251-254 | the status reset clears only `isActive`, closes the dropdown and applies nothing |
| FilterBarComponent.FilterBar.ApplyStatus | src/components/FilterBar.tsx:260-263 | the status apply button applies the temporary state and closes the dropdown |
| FilterBarComponent.FilterBar.SelectOrder | src/components/FilterBar.tsx:297-303 | an order radio sets only `order`, to that option's value |
| FilterBarComponent.FilterBar.ResetOrder | src/components/FilterBar.tsx:312-315 | the order reset sets only `order` to 0, closes the dropdown and applies nothing |
| FilterBarComponent.FilterBar.ApplyOrder | src/components/FilterBar.tsx:321-324 | the order apply button applies the temporary state and closes the dropdown |
| Lists.RemoveAll | src/components/FilterBar.tsx:36 | `filter(p => p !== x)` removes every `x`, keeps every other value's count, and keeps a duplicate-free list duplicate-free |
| Lists.RemoveEach | src/components/FilterBar.tsx:50 | `filter(p => !values.includes(p))` removes exactly the listed values and keeps every other value's count |
| Lists.RemoveEachAppend | src/components/FilterBar.tsx:50 | `filter` keeps list order: removing the listed values from a concatenation removes them from each part and concatenates the results |
| Lists.RemoveEachSingle | src/components/FilterBar.tsx:50 | a single position is kept exactly when it is not one of the category's values |
| Lists.DistinctIffElementsSize | src/pages/ProfileCreatePage.tsx:174-175 | a list has no duplicates exactly when its `Set` is as large as the list |
| Text.Trim | src/pages/ProfileCreatePage.tsx:161 | the result has no white space at either end; it is empty exactly for blank input; a string with no space at its ends is unchanged |
| Text.TrimIsCore | src/pages/ProfileCreatePage.tsx:161 | the input is the trimmed text with a blank prefix before it and a blank suffix after it, so only white space at the ends is removed |
| Text.JoinSplit | src/tabs/ProfileTab.tsx:4 | joining the pieces of `split(',')` with the comma gives back the string |
| Text.SplitJoin | src/pages/ProfileCreatePage.tsx:268 | splitting a comma-join of comma-free pieces gives back the pieces |
| Text.ParseInt | src/pages/ProfileCreatePage.tsx:112 | `parseInt` of a non-empty digit string is its decimal value |
| Text.NatToDecimal | src/pages/ProfileCreatePage.tsx:8 | `toString` of a natural number is digits without a leading zero that read back as the number |
| Text.IntToString | src/tabs/ProfileTab.tsx:19 | `toString` of an integer is the decimal of its magnitude, after a minus sign exactly for a negative number |
| Text.LastTwo | src/pages/ProfileCreatePage.tsx:9 | `slice(-2)` is a suffix of the string, two characters long or the whole of a shorter string |
| Text.LastTwoDigits | src/pages/ProfileCreatePage.tsx:8-9 | the last two characters of a number of two or more digits are its tens and units digits and read as the number modulo 100 |
| Text.PadStart2 | src/pages/ProfileCreatePage.tsx:43-44 | `padStart(2, '0')` ends with the string, is at least two long, and fills only with zeros |
| Text.PaddedTwoDigits | src/pages/ProfileCreatePage.tsx:43-44 | a number below 100 padded to two characters is two digits that read back as the number |
| Text.Split | src/tabs/ProfileTab.tsx:4 | `split(',')` gives at least one piece, and no piece contains the separator |
| Text.Join | src/pages/ProfileCreatePage.tsx:268 | `join` of no parts is empty; otherwise the result starts with the first part and ends with the last |
| Text.NegativeDigit | src/pages/ProfileCreatePage.tsx:112 | `parseInt` of a minus sign and one digit is the negated digit |
| ProfileCreatePage.ReverseStudentId | src/pages/ProfileCreatePage.tsx:7-10 | a year of two or more digits gives two digits, which read as the year modulo 100 |
| ProfileCreatePage.MatchesDigits | src/pages/ProfileCreatePage.tsx:97 | a string the digit pattern admits, with at least one digit required, is read in full by `parseInt` |
| ProfileCreatePage.ValidateStudentId | src/pages/ProfileCreatePage.tsx:91-108 | valid exactly for two ASCII digits; the message is cleared exactly when valid or empty, and otherwise is the two-digit hint |
| ProfileCreatePage.Century | src/pages/ProfileCreatePage.tsx:113-116 | a number is moved into the 1900s or the 2000s, and a number 0..99 lands in 1925..2024 |
| ProfileCreatePage.CenturyOfTwoDigits | src/pages/ProfileCreatePage.tsx:111-117 | a number 0..99 put in its century lies in 1925..2024 and ends in that number |
| ProfileCreatePage.ConvertStudentId | src/pages/ProfileCreatePage.tsx:111-117 | NaN exactly when `parseInt` fails; a valid id gives a year in 1925..2024 ending in its two digits |
| ProfileCreatePage.CenturyOfLastTwo | src/pages/ProfileCreatePage.tsx:113-116 | a year equals the century of its last two digits exactly in 1925..2024; years 1900..1924 move a century forward |
| ProfileCreatePage.StudentIdRoundTrip | src/pages/ProfileCreatePage.tsx:65 | for every integer year, loading it and saving it again keeps it exactly when it lies in 1925..2024 |
| ProfileCreatePage.ShortYearMoves | src/pages/ProfileCreatePage.tsx:7-10 | a one-digit or negative year never survives loading and saving |
| ProfileCreatePage.StudentIdCentury | src/pages/ProfileCreatePage.tsx:266 | a stored year 1900..1924 is saved back a century later |
| ProfileCreatePage.StudentIdExample | src/pages/ProfileCreatePage.tsx:101 | the hint's example id "25" becomes 1925 |
| ProfileCreatePage.GenerateRandomString | src/pages/ProfileCreatePage.tsx:30-38 | given indices inside the alphabet, the string has the requested length and each character is the alphabet letter at its index |
| ProfileCreatePage.FormatDate | src/pages/ProfileCreatePage.tsx:41-46 | for a four-digit year and a valid month and day, eight digits reading back as year, one-based month and day |
| ProfileCreatePage.NonBlank | src/pages/ProfileCreatePage.tsx:171 | keeps only majors that are not blank, never grows, and keeps a non-blank main major first |
| ProfileCreatePage.NonBlankAppend | src/pages/ProfileCreatePage.tsx:171 | filtering keeps list order: the filter of a concatenation is the concatenation of the filters |
| ProfileCreatePage.NonBlankSingle | src/pages/ProfileCreatePage.tsx:171 | a single major is kept exactly when it is not blank after trimming |
| ProfileCreatePage.NonBlankKeepsFilled | src/pages/ProfileCreatePage.tsx:171 | every non-blank major is kept, as often as it occurs in the input |
| ProfileCreatePage.ValidateMajors | src/pages/ProfileCreatePage.tsx:159-186 | true exactly when the main major is present and not blank and the trimmed filled-in majors are pairwise distinct |
| ProfileCreatePage.DepartmentString | src/pages/ProfileCreatePage.tsx:268 | for valid majors the department starts with the main major |
| ProfileCreatePage.DepartmentRoundTrip | src/pages/ProfileCreatePage.tsx:69-72 | splitting the saved department of valid comma-free majors gives the filled-in majors, main major first |
| ProfileCreatePage.RemoveAt | src/pages/ProfileCreatePage.tsx:154 | removes exactly the entry at the index and keeps the rest in order |
| ProfileCreatePage.ResumeError | src/pages/ProfileCreatePage.tsx:193-213 | no error exactly for a PDF of at most 5 MiB; the type error exactly for a non-PDF |
| ProfileCreatePage.ResumePath | src/pages/ProfileCreatePage.tsx:215-218 | the path starts with `static/private/CV/` and ends with `/` and the file name |
| ProfileCreatePage.ResumeValid | src/pages/ProfileCreatePage.tsx:235 | in edit mode a stored path suffices; otherwise a file must have been chosen |
| ProfileCreatePage.FormValid | src/pages/ProfileCreatePage.tsx:231-238 | valid exactly when the id, the majors and the résumé are; the résumé needs a stored path in edit mode and a file otherwise |
| ProfileCreatePage.ProfileForm.constructor | src/pages/ProfileCreatePage.tsx:17-27 | one empty main major, no résumé, no errors, loading exactly in edit mode |
| ProfileCreatePage.ProfileForm.LoadProfile | src/pages/ProfileCreatePage.tsx:49-88 | outside edit mode nothing happens. Without a token it goes to `/sign-in` and keeps loading. A failed fetch goes to `/mypage`. Otherwise the present fields replace the form's, and loading ends |
| ProfileCreatePage.ProfileForm.CheckStudentId | src/pages/ProfileCreatePage.tsx:91-108 | returns the validity and sets only the student-id message |
| ProfileCreatePage.ProfileForm.HandleStudentIdChange | src/pages/ProfileCreatePage.tsx:119-130 | only up to two digits are accepted; two digits are validated, an empty value clears the message, other input changes nothing |
| ProfileCreatePage.ProfileForm.HandleMajorChange | src/pages/ProfileCreatePage.tsx:132-141 | only the entry at the index changes; a non-empty main major clears the message |
| ProfileCreatePage.ProfileForm.HandleAddMajor | src/pages/ProfileCreatePage.tsx:143-149 | appends one empty entry below seven entries and is a no-op at seven or more |
| ProfileCreatePage.ProfileForm.HandleRemoveMajor | src/pages/ProfileCreatePage.tsx:151-156 | index 0 is a no-op; any other index removes exactly that entry; the main major always survives |
| ProfileCreatePage.ProfileForm.CheckMajors | src/pages/ProfileCreatePage.tsx:159-186 | returns the majors' validity and sets the message exactly when invalid |
| ProfileCreatePage.ProfileForm.HandleResumeChange | src/pages/ProfileCreatePage.tsx:188-223 | no file changes nothing; a rejected file clears file and path and sets its message; an accepted one stores the file and its path and clears the message |
| ProfileCreatePage.ProfileForm.HandleRemoveResume | src/pages/ProfileCreatePage.tsx:225-229 | clears file, path and résumé message |
| ProfileCreatePage.ProfileForm.IsFormValid | src/pages/ProfileCreatePage.tsx:231-238 | returns the form check after both validators have set their messages |
| ProfileCreatePage.ProfileForm.MarkMissing | src/pages/ProfileCreatePage.tsx:241-255 | an empty id gets the two-digit hint and a missing file the 5 MB message; every other message stays |
| ProfileCreatePage.ProfileForm.Submit | src/pages/ProfileCreatePage.tsx:240-287 | an invalid form sends nothing; the validators set their messages and a missing id and a missing file are marked. A valid one without a token goes to sign-in. Otherwise it sends the converted year (1925..2024), the comma-joined majors and the résumé path |
| ProfileCreatePage.SaveThenLoad | src/pages/ProfileCreatePage.tsx:266-268 | what the form saves loads back: the year when in 1925..2024, the filled-in majors when comma-free |
| ProfileTab.DeptParts | src/tabs/ProfileTab.tsx:8-10 | part i is the trimmed i-th piece, with `(다전공)` on every part but the first |
| ProfileTab.DepartmentDisplay | src/tabs/ProfileTab.tsx:3-16 | starts with the first trimmed piece and ends with the last part; a comma-free department shows as its trimmed text |
| ProfileTab.MakeDeptString | src/tabs/ProfileTab.tsx:3-16 | the loop builds the parts joined by ` · ` between consecutive parts only |
| ProfileTab.MakeYearString | src/tabs/ProfileTab.tsx:18-21 | one or two digit-or-minus characters; for a year of two or more digits, the two digits read as the year modulo 100 |
| ProfileTab.MakeYearStringExample | src/tabs/ProfileTab.tsx:18-21 | 2019 gives `19` |
| ProfileTab.DepartmentText | src/tabs/ProfileTab.tsx:27 | a missing or empty department shows `무전공`; a comma-free one shows trimmed |
| ProfileTab.YearText | src/tabs/ProfileTab.tsx:28 | `무` exactly when the year is missing or zero; otherwise the year's last two digits |
| ProfileTab.OptionalFieldExist | src/tabs/ProfileTab.tsx:24-25 | hidden exactly when positions, stacks and links are absent and the explanation is absent or empty |
| ProfileTab.Summary | src/tabs/ProfileTab.tsx:23-28 | the tab shows the department text, the year text and the optional section as those rules say |
| ProfileTab.SavedDepartmentDisplay | src/tabs/ProfileTab.tsx:27 | a department saved from valid comma-free majors shows the filled-in majors, starting with the trimmed main major |
| PostCard.DDayMessage | src/components/PostCard.tsx:17-24 | a positive difference shows `마감까지 D-` and the number, 0 shows `오늘 마감!`, a negative one `마감` |
| PostCard.DDayMessageBranches | src/components/PostCard.tsx:17-24 | exactly one branch applies to each difference, and a shown number reads back as the difference |
| PostCard.DDayMessageInjective | src/components/PostCard.tsx:18-19 | different positive differences give different messages |
| PostCard.BookmarkIcon | src/components/PostCard.tsx:27-28 | the icon path's status segment is `on` exactly for a bookmarked post, `off` otherwise |
| PostCard.BookmarkIconInjective | src/components/PostCard.tsx:27-28 | the two states give different icons |
| BookmarkCard.DDayMessage | src/components/BookmarkCard.tsx:13-30 | no end date gives `상시모집`, a passed one `마감`, a zero difference `D-Day`, any other `D-` and the number |
| BookmarkCard.DDayColour | src/components/BookmarkCard.tsx:59-61 | red exactly for `마감`, blue otherwise |
| BookmarkCard.ColourShowsPassedDeadline | src/components/BookmarkCard.tsx:19 | the card is red exactly when the deadline has passed |
| BookmarkCard.PositionToKorean | src/components/BookmarkCard.tsx:32-53 | a name exactly for the eight position types, the unknown-position error otherwise |
| BookmarkCard.PositionToKoreanInjective | src/components/BookmarkCard.tsx:34-49 | different position types get different names |
| BookmarkCard.BookmarkSource | src/components/BookmarkCard.tsx:55-57 | `/bookmark_on.svg` exactly when bookmarked, `/bookmark_off.svg` exactly when not |
| BookmarkCard.BookmarkCardState.constructor | src/components/BookmarkCard.tsx:64-65 | the card starts bookmarked with the "on" icon |
| BookmarkCard.BookmarkCardState.Click | src/components/BookmarkCard.tsx:68-85 | without a token it fails and nothing changes. Otherwise a bookmarked card sends a removal and an unbookmarked one an addition, the flag flips and the icon follows |
| SignUpPage.ButtonDisabled | src/pages/SignUpPage.tsx:12-14 | enabled exactly when name, password and e-mail id are non-empty and the confirmation equals the password |
| SignUpPage.SignUpForm.constructor | src/pages/SignUpPage.tsx:6-9 | the four fields start empty |
| SignUpPage.SignUpForm.SetName | src/pages/SignUpPage.tsx:46 | typing in the name field sets the name only |
| SignUpPage.SignUpForm.SetPassword | src/pages/SignUpPage.tsx:53 | typing in the password field sets the password only |
| SignUpPage.SignUpForm.SetPasswordConfirm | src/pages/SignUpPage.tsx:60 | typing in the confirmation field sets the confirmation only |
| SignUpPage.SignUpForm.SetEmailId | src/pages/SignUpPage.tsx:68 | typing in the e-mail field sets the e-mail id only |
| SignUpPage.SignUpForm.RequestBody | src/pages/SignUpPage.tsx:16-17 | sends the name, `emailId + '@snu.ac.kr'` and the password, never the confirmation |
| SignUpPage.EnabledRequestConfirmed | src/pages/SignUpPage.tsx:13 | with the button enabled, the password sent equals the confirmation and the address is a non-empty university one |
| SignInPage.ButtonDisabled | src/pages/SignInPage.tsx:14-16 | disabled exactly when the e-mail id or the password is empty |
| SignInPage.EnablementDependsOnEmptiness | src/pages/SignInPage.tsx:15 | the button depends only on which fields are empty |
| SignInPage.SignInForm.constructor | src/pages/SignInPage.tsx:10-11 | both fields start empty |
| SignInPage.SignInForm.SetEmailId | src/pages/SignInPage.tsx:41 | typing in the e-mail field sets the e-mail id only |
| SignInPage.SignInForm.SetPassword | src/pages/SignInPage.tsx:52 | typing in the password field sets the password only |
| SignInPage.SignInForm.RequestBody | src/pages/SignInPage.tsx:18-19 | sends `emailId + '@snu.ac.kr'`, from which the id reads back, and the password unchanged |
| MyPage.CreateProfileTarget | src/pages/MyPage.tsx:45-51 | the edit form exactly when a profile exists, the empty form otherwise |
| MyPage.HeaderButtonLabel | src/pages/MyPage.tsx:88-90 | "create" exactly when no profile was found, "edit" otherwise (also while loading) |
| MyPage.LabelMatchesTarget | src/pages/MyPage.tsx:45-90 | label and target disagree exactly while loading |
| MyPage.DepartmentLine | src/pages/MyPage.tsx:139 | a comma-free department is shown as is; the line starts with the first piece |
| MyPage.SavedDepartmentLine | src/pages/MyPage.tsx:139 | a department saved from valid comma-free majors shows the filled-in majors joined by ` · `, main major first |
| MyPage.SingleDepartmentAgreesWithTab | src/pages/MyPage.tsx:139 | for one department, this page and the profile tab agree up to trimming |
| MyPage.EnrollYearText | src/pages/MyPage.tsx:140 | empty exactly when the year is missing; a zero year renders the number `0`; any other year is the full year followed by `학번` |
| MyPage.MyPageState.constructor | src/pages/MyPage.tsx:8-14 | starts on the bookmarks tab, loading, with no profile |
| MyPage.MyPageState.SelectTab | src/pages/MyPage.tsx:17-18 | the tab changes; a fetch starts exactly when switching to the profile tab from the other one |
| MyPage.MyPageState.CompleteFetch | src/pages/MyPage.tsx:19-38 | no token or any error gives `not_found`; success stores the profile and gives `exists`; a profile is stored whenever one exists |

## Left out

- `src/api.ts`, cookies (`js-cookie`) and `AuthContext` are not modelled. Tokens and server replies are parameters, and requests are returned or recorded as values.
- The profile update request's own success or failure is left out. `Submit` returns the request; the alerts and the move to `/mypage` after a successful save are not modelled.
- Navigation, `alert` and `console` are left out. Navigation targets are returned values.
- JSX, CSS and routing are left out, and so are the pages and tabs that only render: `App`, `Header`, `LoginModal`, `PageButton`, `MainPage`, `BookmarkTab`, `NoBookmarkTab`, `NoProfileTab`.
- `getDDay` and the date comparison in the bookmark card's `getDDayMessage` are not modelled. They use local-time `Date` values, float division and `Math.round`. The messages are modelled from a whole-day difference, or from whether the end date has passed.
- ProfileCreatePage.GenerateRandomString: `Math.random` is replaced by the drawn indices, given as a parameter.
- ProfileCreatePage.ProfileForm.HandleResumeChange: the random part of the résumé path is a free parameter. It is not tied to `GenerateRandomString(10, …)`, so the model does not promise that the path's random part is ten alphabet letters.
- ProfileCreatePage.FormatDate: `new Date()` is replaced by its calendar fields, given as parameters.
- ProfileCreatePage.ProfileForm.HandleMajorChange: requires an index of the rendered list. Writing past the end of a JavaScript array is not modelled.
- FilterBarComponent.FilterBar.ToggleCategory: `allSelected` is computed from the rendered state and the update from React's `prev` state. The model treats them as the same state, so batched updates within one render are not modelled.
- FilterBarComponent.PositionLabel: `category?.label || value` is modelled as the category label whenever one is found, since no category label is empty (Filters.CategoriesCoverPositionTypes).
- React's `useState`, `useEffect` and `useMemo` scheduling is not modelled. Each handler is an atomic method, and an effect runs in the method that changes its dependency.
- `NaN` is not modelled as a number. `ConvertStudentId` returns `None` where the source computes `1900 + NaN`, and numeric truthiness covers only missing and zero.
- `PositionType`, `ApplicantProfile` and `Post` are imported but not defined in `types.ts`. `PositionType` is a string, with the eight known values listed. `ApplicantProfile` holds the fields the pages read. `Post` is not part of this model.
- `getApplicantProfile` and `updateApplicantProfile` are not defined in `api.ts`; their outcomes are parameters.
