# A verified model of the widget library's state machines

This project models the logic of a small React widget library in Dafny and
proves properties of that model. Each widget that keeps state across
events becomes a class whose methods are its event handlers. What a render
derives from that state becomes pure functions. SearchFilter is the
exception: its only state is the query string, so it is modelled as pure
functions of the query. JSX, styles and the DOM are not modelled.

Modules:

- `Seqs`, `Text`, `Values`, `StableSort`: the JavaScript operations the
  widgets rely on. These are:
  - `Array.prototype.filter`, as an order-preserving subsequence;
  - ASCII `toLowerCase`;
  - `String.prototype.includes`;
  - the string `<`;
  - `String(value)` of a cell, where a key the row does not have reads as
    `undefined` (keys inherited from `Object.prototype` are not modelled);
  - the stable `Array.prototype.sort` with a three-way comparator.
- `DataTable`: the derived view (filters, then a stable sort on one
  column's lower-cased text, then `ceil` paging) and the table's state
  machine. The derivation's filter loop is a method proved equal to the
  pure view for every order of the filter entries.
- `Tabs`: the active tab, the focused tab, and the keyboard moves over the
  enabled tabs with wrap-around.
- `MultiStepForm`: the wizard's step index, validation-gated Next/Submit,
  the error map, the shallow merge of form data and the progress bar.
- `FileUpload`: file validation, the batch loop with its all-or-nothing
  commit, removal by id, and upload.
- `Toast`: the `useToast` list, the type-to-icon map and the visibility
  gate.
- `Rating`: click and hover on whole and half stars, the guards,
  controlled versus uncontrolled mode, and the lit stars.
- `LoginForm`: the e-mail pattern, as a specification of the regular
  expression proved equal to a condition-by-condition test; the validity
  flag; the submit gate.
- `SearchFilter`, `Stepper` and `ButtonToggle`.

Where the library's unit tests and its code disagree, the model follows the
code:

- Filtering "name" by "John" keeps both "John Doe" and "Bob Johnson",
  because the filter is a substring test.
  `tests/unit/DataTable.test.tsx:76-83` expects one row.
- A descending sort on "name" puts "John Doe" first.
  `tests/unit/DataTable.test.tsx:72-73` expects "Charlie Wilson".
- An ascending sort on "name" with 3 rows per page starts page 2 with
  "Jane Smith". `tests/unit/DataTable.test.tsx:127-136` expects
  "Charlie Wilson".

Other behaviour of the code that the model keeps:

- The Next button is disabled only when the page equals the page count. So
  with no rows it stays enabled and leads to "Page 2 of 0"
  (`DataTable.NextWithNoRows`).
- The page is not clamped when fewer rows remain.
- Rating never clamps or rounds a value and has no keyboard handler.
- Tabs: when two enabled tabs share an id, `findIndex` (component/Tabs.tsx:41-43)
  finds the first copy, so the arrow keys move on from that copy. The arrow
  lemmas assume distinct enabled ids (`Seqs.DistinctKeys`); `Tabs.KeyTarget`
  and `Tabs.FocusTargetsEnabled` hold for any tabs.

Callbacks (`onChange`, `onSubmit`, `onTabChange`, `onError`, `onUpload`,
`onHover`, `onRowClick`) are modelled as the values a handler returns. A
missing callback is a flag or is simply not called. Clock readings
(`Date.now()`) are parameters.

## Model

| member | source | states |
|---|---|---|
| Values.FieldText | component/DataTable.tsx:35 | definition of `String(row[key])`: the field's text, or `undefined` when the row lacks the key |
| Values.ToText | component/DataTable.tsx:35 | definition of `String(v)` for a cell value: a string as it is, an integer in decimal, `true` or `false`, and `null` |
| Text.LowerChar | component/DataTable.tsx:35 | definition of `toLowerCase` on one character: A-Z become a-z and every other character is kept |
| Text.Lower | component/DataTable.tsx:35 | lower-casing keeps the length and lower-cases each letter A-Z, leaving other characters alone |
| Text.LowerIdempotent | component/SearchFilter.tsx:9 | lower-casing an already lower-cased string changes nothing |
| Text.IncludesAt | component/DataTable.tsx:35 | `s.includes(t)` holds iff `t` occurs in `s` at some offset |
| Text.IncludesEmpty | component/DataTable.tsx:33-35 | every string includes the empty query |
| Text.IsPrefixIff | component/DataTable.tsx:35 | the character-by-character prefix test is the prefix relation |
| Text.Includes | component/DataTable.tsx:35 | definition of `s.includes(t)`: `t` is a prefix of `s` or of one of its suffixes |
| Text.Less | component/DataTable.tsx:46-47 | definition of the string `<`: first differing character, a proper prefix first |
| Text.LessIrreflexive | component/DataTable.tsx:46-47 | no string is `<` itself |
| Text.LessTransitive | component/DataTable.tsx:46-47 | the string `<` is transitive |
| Text.LessTotal | component/DataTable.tsx:46-47 | of two different strings one is `<` the other |
| Text.NatToString | component/Toast.tsx:209 | the decimal form of a number is non-empty and all digits |
| Text.NatToStringValue | component/Toast.tsx:209 | reading the decimal digits back gives the number, so distinct clock readings give distinct ids |
| Text.IntToString | component/DataTable.tsx:35 | definition of `String(n)` for an integer: a minus sign before the digits of a negative number |
| Text.IsSpace | component/LoginForm.tsx:19 | definition of the class `\s`: the ECMAScript white-space and line-terminator characters |
| Seqs.Filter | component/DataTable.tsx:34-36 | `filter` returns at most the input's elements, each satisfying the predicate |
| Seqs.FilterIsSubsequence | component/DataTable.tsx:34-36 | `filter` keeps the input order |
| Seqs.FilterCount | component/DataTable.tsx:34-36 | an element is kept as often as it occurs when it satisfies the predicate, and dropped otherwise |
| Seqs.FilterMembership | component/SearchFilter.tsx:8-10 | an element is in the result iff it is in the input and satisfies the predicate |
| Seqs.FilterAll | component/DataTable.tsx:29 | filtering with a predicate every element satisfies returns the input |
| Seqs.FilterCongruent | component/DataTable.tsx:33 | predicates that agree on the elements give the same result |
| Seqs.FilterTwice | component/DataTable.tsx:32-38 | filtering twice is filtering once by the conjunction |
| Seqs.FilterConcat | component/Toast.tsx:216 | filtering distributes over concatenation |
| Seqs.RemoveKey | component/Toast.tsx:216 | definition of the removal by id that the toast list and the upload list share: the elements whose id differs, in order |
| Seqs.RemoveKeyDropsExactly | component/FileUpload.tsx:121 | removal by id drops every element with that id, keeps every other element as often as before, and keeps the order |
| Seqs.RemoveKeyUnknown | component/Toast.tsx:216 | an id no element has leaves the sequence unchanged |
| Seqs.RemoveKeyConcat | component/Toast.tsx:216 | removal by id distributes over concatenation |
| Seqs.DistinctKeys | component/Tabs.tsx:41-43 | definition: no two elements share an id, the condition under which a `findIndex` by id finds every element at its own position |
| StableSort.Compare | component/DataTable.tsx:42-49 | the comparator answers 0 exactly on equal keys, and a negative value exactly when the first key goes first in the chosen direction |
| StableSort.Insert | component/DataTable.tsx:42-49 | definition of one insertion step: the row goes after the rows that strictly precede it and before its equals |
| StableSort.Sort | component/DataTable.tsx:42-49 | definition of the sort by repeated insertion; its properties are the lemmas below |
| StableSort.CompareAntisymmetric | component/DataTable.tsx:46-48 | swapping the arguments negates the comparator |
| StableSort.PrecedesTransitive | component/DataTable.tsx:46-48 | "goes strictly first" is transitive in both directions |
| StableSort.SortPermutation | component/DataTable.tsx:42 | the sort neither loses nor adds a row |
| StableSort.SortSorted | component/DataTable.tsx:42-49 | after the sort no row goes strictly before an earlier one |
| StableSort.SortStable | component/DataTable.tsx:48 | rows with equal keys keep their input order, ascending and descending |
| StableSort.SortedUnique | component/DataTable.tsx:42-49 | two ordered sequences that agree key by key on element order are equal |
| StableSort.SortIsTheStableSort | component/DataTable.tsx:42-49 | any ordered rearrangement that keeps the order of equal keys is the sort's result, so a stable `sort` has exactly this result |
| DataTable.ComputeRows | component/DataTable.tsx:28-53 | the loop narrowing `result` once per non-empty filter entry, in any entry order, then sorting the copy, yields the derived view |
| DataTable.CellKey | component/DataTable.tsx:35 | definition of `String(row[key]).toLowerCase()` |
| DataTable.CellMatches | component/DataTable.tsx:35 | definition of one column's test: the lower-cased field text includes the lower-cased query |
| DataTable.FilterRows | component/DataTable.tsx:32-38 | definition of the filter stage: the rows passing every non-empty query, in data order; FilterRowsCount and FilterRowsOrder state its properties |
| DataTable.SortActive | component/DataTable.tsx:41 | definition of the truthiness test `if (sortColumn)`: a column is set and is not the empty string |
| DataTable.PassesOn | component/DataTable.tsx:33-37 | definition: the row matches every non-empty query of the columns considered so far |
| DataTable.Passes | component/DataTable.tsx:32-38 | definition: the row matches every non-empty query |
| DataTable.DerivedRows | component/DataTable.tsx:28-53 | the view holds exactly the filtered rows, each as often as in the filtered list |
| DataTable.FilterStep | component/DataTable.tsx:33-37 | one more non-empty filter narrows the rows by exactly that column's match |
| DataTable.FilterRowsCount | component/DataTable.tsx:32-38 | a row survives, as often as it occurs, iff its lower-cased field text includes every non-empty lower-cased query |
| DataTable.FilterRowsOrder | component/DataTable.tsx:32-38 | filtering yields an order-preserving subsequence of the data |
| DataTable.EmptyFiltersKeepAll | component/DataTable.tsx:33 | queries that are all empty keep every row in order |
| DataTable.ClearingFiltersRestores | component/DataTable.tsx:32-38 | emptying every filter gives the same view as no filters |
| DataTable.UnsortedKeepsOrder | component/DataTable.tsx:41 | without an active sort column the view keeps the data order |
| DataTable.SortedView | component/DataTable.tsx:41-50 | with a sort column the view is a permutation of the filtered rows, ordered by the lower-cased key, with ties in filtered order |
| DataTable.SortedViewAdjacent | component/DataTable.tsx:43-47 | adjacent rows' keys never decrease ascending and never increase descending |
| DataTable.TotalPages | component/DataTable.tsx:55 | `ceil(n / pageSize)`: enough pages for every row, no empty last page, and 0 pages iff no rows |
| DataTable.StartIndex | component/DataTable.tsx:56 | definition of `(currentPage - 1) * pageSize` |
| DataTable.PageRows | component/DataTable.tsx:56-57 | the page slice holds at most `pageSize` rows, its exact clipped length, and row `start + i` at position `i` |
| DataTable.PageBounded | component/DataTable.tsx:55-57 | every page up to the page count is non-empty and holds at most `pageSize` rows |
| DataTable.PagingExamples | component/DataTable.tsx:55-57 | 5 rows at 3 per page make 2 pages of 3 and 2 rows; 0 rows make 0 pages |
| DataTable.Table.constructor | component/DataTable.tsx:17-26 | page 1, no sort column, ascending, no filters; `pageSize` defaults to 10 |
| DataTable.Table.Rows | component/DataTable.tsx:28-53 | definition of `filteredAndSortedData` on the current data, filters, sort column and direction |
| DataTable.Table.PageCount | component/DataTable.tsx:55 | definition of `totalPages` on the current view |
| DataTable.Table.VisibleRows | component/DataTable.tsx:56-57 | definition of `paginatedData` on the current view |
| DataTable.Table.PreviousDisabled | component/DataTable.tsx:129 | definition of `currentPage === 1` |
| DataTable.Table.NextDisabled | component/DataTable.tsx:139 | definition of `currentPage === totalPages` |
| DataTable.Table.HandleSort | component/DataTable.tsx:59-67 | the active column flips direction, another column becomes active ascending, and the page becomes 1 |
| DataTable.Table.HandleFilter | component/DataTable.tsx:69-75 | only this column's query changes, and the page becomes 1 |
| DataTable.Table.ClickPrevious | component/DataTable.tsx:127-130 | on page 1 the button is disabled; otherwise the page decreases by 1 |
| DataTable.Table.ClickNext | component/DataTable.tsx:137-140 | when the page equals the page count the button is disabled; otherwise the page increases by 1 |
| DataTable.Table.SetData | component/DataTable.tsx:53 | new data replaces the old and the page is kept |
| DataTable.Table.Render | component/DataTable.tsx:28-57 | the rows rendered are the current page of the derived view |
| DataTable.Table.ClickRow | component/DataTable.tsx:113 | a row click hands the row shown at that position to `onRowClick`, when given |
| DataTable.SortTwiceDescends | component/DataTable.tsx:59-67 | two clicks on a new column sort it descending, on page 1 |
| DataTable.FilterResetsPage | component/DataTable.tsx:69-75 | from any page, a filter edit shows page 1 with Previous disabled, and Next disabled iff there is exactly one page |
| DataTable.NextWithNoRows | component/DataTable.tsx:137-140 | with no rows, Next is enabled and leads to page 2 of 0 |
| Tabs.IndexOfId | component/Tabs.tsx:41-43 | `findIndex` gives the first index holding the id, or -1 when there is none |
| Tabs.FindTab | component/Tabs.tsx:34 | definition of `tabs.find(tab => tab.id === tabId)`: the first tab with the id, or none |
| Tabs.InitialActive | component/Tabs.tsx:23 | definition of the `or` chain of default, first id and `''`: the default tab if non-empty, else the first tab's id, else `''` |
| Tabs.EnabledTabs | component/Tabs.tsx:42 | exactly the enabled tabs, in strip order |
| Tabs.ClickBlocked | component/Tabs.tsx:34 | definition: the first tab with the id exists and is disabled |
| Tabs.IsNavigation | component/Tabs.tsx:47-73 | definition of the navigation keys: the four arrows, Home and End |
| Tabs.KeyTarget | component/Tabs.tsx:40-79 | Enter and Space activate, other keys do nothing, and a navigation key throws iff no tab is enabled and focuses a tab otherwise |
| Tabs.ForwardWraps | component/Tabs.tsx:51-55 | moving forward from position k of m is `(k+1) mod m` |
| Tabs.BackwardWraps | component/Tabs.tsx:60-64 | moving backward from position k of m is `(k-1+m) mod m` |
| Tabs.IndexOfUnique | component/Tabs.tsx:43 | with distinct ids, the k-th tab's id is found at k |
| Tabs.ArrowForward | component/Tabs.tsx:48-56 | with distinct enabled ids, ArrowRight/ArrowDown on the k-th of m enabled tabs focuses enabled tab `(k+1) mod m` |
| Tabs.ArrowBackward | component/Tabs.tsx:57-65 | with distinct enabled ids, ArrowLeft/ArrowUp on the k-th of m enabled tabs focuses enabled tab `(k-1+m) mod m`, wrapping first to last |
| Tabs.HomeAndEnd | component/Tabs.tsx:66-73 | Home focuses the first enabled tab and End the last |
| Tabs.RightThenLeft | component/Tabs.tsx:48-65 | with distinct enabled ids, from an enabled tab, Right then Left returns focus to it |
| Tabs.FocusTargetsEnabled | component/Tabs.tsx:42-73 | the keys only ever focus an enabled tab |
| Tabs.TabList.constructor | component/Tabs.tsx:23-24 | the initial active tab, and nothing focused |
| Tabs.TabList.PropsChanged | component/Tabs.tsx:27-31 | a new default is selected only if non-empty and some tab has that id |
| Tabs.TabList.Click | component/Tabs.tsx:33-38 | a disabled tab changes nothing and fires nothing; otherwise it becomes active and `onTabChange(id)` fires |
| Tabs.TabList.KeyDown | component/Tabs.tsx:40-85 | navigation keys change only the focus, and only to a non-empty id; Enter/Space follow the click rules; with no enabled tab a navigation key throws |
| Tabs.TabList.Focus | component/Tabs.tsx:122 | focusing a tab records it |
| Tabs.TabList.Blur | component/Tabs.tsx:123 | blurring clears the focus |
| MultiStepForm.Merge | component/MultiStepForm.tsx:36-38 | the shallow merge: new keys override, the others are kept |
| MultiStepForm.Validates | component/MultiStepForm.tsx:40-45 | definition: a step without validation passes, otherwise its validation decides |
| MultiStepForm.MergeIdempotent | component/MultiStepForm.tsx:37 | merging the same fields twice equals merging once |
| MultiStepForm.ProgressPercentage | component/MultiStepForm.tsx:66 | the bar is above 0 and at most 100 percent, and full exactly on the last step |
| MultiStepForm.ProgressIncreases | component/MultiStepForm.tsx:66 | one step further gives a strictly longer bar |
| MultiStepForm.Wizard.constructor | component/MultiStepForm.tsx:28-30 | first step, the initial data, no errors |
| MultiStepForm.Wizard.IsFirst | component/MultiStepForm.tsx:33 | definition of `currentStep === 0` |
| MultiStepForm.Wizard.IsLast | component/MultiStepForm.tsx:34 | definition of `currentStep === steps.length - 1` |
| MultiStepForm.Wizard.Title | component/MultiStepForm.tsx:101 | definition of the heading: the current step's title |
| MultiStepForm.Wizard.ErrorShown | component/MultiStepForm.tsx:104 | definition: the current step's id has a non-empty error |
| MultiStepForm.Wizard.IndicatorActive | component/MultiStepForm.tsx:89 | definition: indicator `index` is lit iff `index <= currentStep` |
| MultiStepForm.Wizard.PreviousVisible | component/MultiStepForm.tsx:124 | the Previous button shows iff the step is not the first |
| MultiStepForm.Wizard.NextLabel | component/MultiStepForm.tsx:138 | the button reads "Submit" iff on the last step and "Next" otherwise |
| MultiStepForm.Wizard.IndicatorsFollowProgress | component/MultiStepForm.tsx:66-138 | the lit indicators are the steps reached, and all are lit iff the bar is full iff the button reads "Submit" |
| MultiStepForm.Wizard.UpdateFormData | component/MultiStepForm.tsx:36-38 | the form data becomes the shallow merge |
| MultiStepForm.Wizard.HandleNext | component/MultiStepForm.tsx:40-57 | a passing last step submits the data; a passing earlier step advances and keeps errors; a failing step stays and sets errors to exactly its message; a step without validation passes; form data is never touched |
| MultiStepForm.Wizard.HandlePrevious | component/MultiStepForm.tsx:59-64 | on the first step nothing happens; otherwise one step back and errors cleared |
| MultiStepForm.Wizard.ErrorShownIsOwnError | component/MultiStepForm.tsx:104 | with distinct step ids, an error shows iff it is the current step's own, so a stale error never shows after advancing |
| MultiStepForm.FailThenFix | component/MultiStepForm.tsx:36-57 | after a failing Next, fixing the data and pressing Next advances |
| FileUpload.DefaultConfig | component/FileUpload.tsx:18-20 | definition of the defaults: any type, single batch and 5 MiB |
| FileUpload.Validate | component/FileUpload.tsx:29-39 | too large iff the limit is non-zero and exceeded; the size check comes first; `*` skips the type check |
| FileUpload.EntryId | component/FileUpload.tsx:69 | definition of `${file.name}-${Date.now()}-${i}` |
| FileUpload.ErrorsUpTo | component/FileUpload.tsx:57-64 | definition: the errors of the first n files, in order |
| FileUpload.AcceptedUpTo | component/FileUpload.tsx:57-72 | definition: the entries for the valid files among the first n, in order |
| FileUpload.EntriesPlusErrors | component/FileUpload.tsx:57-72 | every file yields exactly one entry or one error |
| FileUpload.NoErrorsIffAllValid | component/FileUpload.tsx:57-74 | no error is reported iff every file is valid |
| FileUpload.AllValidEntries | component/FileUpload.tsx:65-71 | in a clean batch, entry i is file i with the id `name-now-i` |
| FileUpload.EntriesAreValid | component/FileUpload.tsx:59-71 | every entry is a valid file of the batch |
| FileUpload.ScanBatch | component/FileUpload.tsx:57-72 | the loop reports every invalid file to `onError` in order, goes on past errors, and makes an entry per valid file |
| FileUpload.Remove | component/FileUpload.tsx:121 | definition of `prev.filter(f => f.id !== id)`, as `Seqs.RemoveKey` on the entry id |
| FileUpload.RemoveDropsExactlyId | component/FileUpload.tsx:120-122 | removal drops every entry with the id and keeps the others, in order and as often as before |
| FileUpload.RemoveUnknown | component/FileUpload.tsx:121 | an unknown id leaves the list unchanged |
| FileUpload.FilesOf | component/FileUpload.tsx:111 | `files.map(f => f.file)` keeps the order |
| FileUpload.Uploader.constructor | component/FileUpload.tsx:24-26 | no files, not uploading |
| FileUpload.Uploader.ProcessFiles | component/FileUpload.tsx:53-77 | a batch with any invalid file leaves the list unchanged; a clean batch is appended in `multiple` mode and replaces the list otherwise |
| FileUpload.Uploader.RemoveFile | component/FileUpload.tsx:120-122 | the list loses exactly the entries with that id |
| FileUpload.Uploader.HandleUpload | component/FileUpload.tsx:106-118 | an empty list does nothing; otherwise the files go to `onUpload` in order, the list is cleared on return and kept on a throw, `onError` gets the message or "Upload failed", and `uploading` ends false |
| FileUpload.SelectThenUpload | component/FileUpload.tsx:106-118 | a clean single batch is uploaded exactly as selected and the list ends empty |
| Toast.Icon | component/Toast.tsx:93-106 | success gives a check mark, error a cross, warning a warning sign, and info or anything else the information sign |
| Toast.ToastIcon | component/Toast.tsx:93-106 | definition of the defaulted type: a toast without a type shows the information sign |
| Toast.IconsDistinct | component/Toast.tsx:93-106 | the four types have four different icons |
| Toast.ToastId | component/Toast.tsx:209 | definition of `Date.now().toString()` |
| Toast.NewToast | component/Toast.tsx:210 | definition of `{ ...toast, id, show: true }` |
| Toast.Remove | component/Toast.tsx:216 | definition of `prev.filter(toast => toast.id !== id)`, as `Seqs.RemoveKey` on the toast id |
| Toast.RemoveDropsExactlyId | component/Toast.tsx:215-217 | removal drops every toast with the id and keeps the others in order |
| Toast.RemoveUnknown | component/Toast.tsx:215-217 | an unknown id leaves the list unchanged |
| Toast.AddThenRemove | component/Toast.tsx:208-217 | adding with a fresh id and then removing it restores the list |
| Toast.SameMillisecondCollide | component/Toast.tsx:208-217 | two toasts added in the same millisecond share an id, and removing it drops both |
| Toast.ToastList.constructor | component/Toast.tsx:206 | the list starts empty |
| Toast.ToastList.AddToast | component/Toast.tsx:208-213 | exactly one entry with `show: true` is appended, and its id is returned |
| Toast.ToastList.RemoveToast | component/Toast.tsx:215-217 | the list is filtered by id |
| Toast.ToastList.ShowSuccess | component/Toast.tsx:219-221 | adds a success toast with the message |
| Toast.ToastList.ShowError | component/Toast.tsx:223-225 | adds an error toast with the message |
| Toast.ToastList.ShowWarning | component/Toast.tsx:227-229 | adds a warning toast with the message |
| Toast.ToastList.ShowInfo | component/Toast.tsx:231-233 | adds an info toast with the message |
| Toast.ShowThenDismiss | component/Toast.tsx:208-221 | showing and then dismissing by the returned id restores the list |
| Toast.ToastView.constructor | component/Toast.tsx:23-25 | visibility starts at `show`, true by default |
| Toast.ToastView.ShowChanged | component/Toast.tsx:28-30 | visibility follows the `show` prop, and a hidden toast renders nothing |
| Toast.ToastView.Renders | component/Toast.tsx:108 | definition: the toast renders iff it is visible |
| Rating.StarValue | component/Rating.tsx:51-64 | a target's value is `i+0.5` for the half and `i+1` for the whole star |
| Rating.CurrentValue | component/Rating.tsx:37 | definition of `controlledValue ?? internalValue`: the controlled value when given, else the internal one |
| Rating.DisplayValue | component/Rating.tsx:38 | definition of the `or` of the hover and current values: a non-zero hover value wins over the current value |
| Rating.StarCount | component/Rating.tsx:178 | definition of the length `Array.from({ length: max })` gives: `max` stars, none for a negative `max` |
| Rating.IsActive | component/Rating.tsx:77 | definition of `displayValue > index` |
| Rating.IsHalfActive | component/Rating.tsx:78 | definition of `allowHalf && displayValue === index + 0.5` |
| Rating.ValueLightsPrefix | component/Rating.tsx:77 | showing star k's value lights stars 0..k and no later star |
| Rating.HalfValueMarksOneStar | component/Rating.tsx:78 | in half mode a half value half-lights exactly its star |
| Rating.NoHalvesWithoutHalfMode | component/Rating.tsx:78 | without half mode no star is half lit |
| Rating.RatingWidget.constructor | component/Rating.tsx:20-35 | `internalValue` starts at the controlled value, else the default, else 0; `max` defaults to 5 |
| Rating.RatingWidget.Current | component/Rating.tsx:37 | definition of `currentValue` on the widget's state |
| Rating.RatingWidget.Display | component/Rating.tsx:38 | definition of `displayValue` on the widget's state |
| Rating.RatingWidget.Interactive | component/Rating.tsx:79 | definition of `!disabled && !readonly`, the guard every handler tests first |
| Rating.RatingWidget.Stars | component/Rating.tsx:178 | definition of the number of stars rendered |
| Rating.RatingWidget.StarActive | component/Rating.tsx:77 | definition of `isActive` for a star on the displayed value |
| Rating.RatingWidget.StarHalfActive | component/Rating.tsx:78 | definition of `isHalfActive` for a star on the displayed value |
| Rating.RatingWidget.Click | component/Rating.tsx:51-59 | on a rendered target (a star below `max`, its half only in half mode): when interactive, `onChange` gets the value and an uncontrolled widget stores it; a controlled widget's internal value stays; a disabled or readonly widget does nothing |
| Rating.RatingWidget.MouseEnter | component/Rating.tsx:61-67 | on a rendered target: when interactive, the hover value is set and sent to `onHover`; otherwise nothing changes |
| Rating.RatingWidget.MouseLeave | component/Rating.tsx:69-74 | when interactive, the hover value returns to 0 and `onHover(0)` fires |
| Rating.HoverThenLeave | component/Rating.tsx:61-77 | hovering lights the stars up to the target; leaving shows the value as before |
| Rating.ClickLightsPrefix | component/Rating.tsx:51-77 | an uncontrolled click on star k lights exactly stars 0..k |
| LoginForm.IndexOf | component/LoginForm.tsx:19 | the first position of a character, or -1 |
| LoginForm.MatchesEmailPattern | component/LoginForm.tsx:19 | definition of `^[^\s@]+@[^\s@]+\.[^\s@]+$`: the address splits into a word, `@`, a word, `.` and a word, where words are non-empty and free of white space and `@` |
| LoginForm.IsValidEmail | component/LoginForm.tsx:19 | the condition-by-condition address test; the lemma below proves it equals the pattern |
| LoginForm.IsValidPassword | component/LoginForm.tsx:20 | definition of `password.length >= 6` |
| LoginForm.CredentialsValid | component/LoginForm.tsx:19-21 | definition of `isValidEmail && isPasswordValid` |
| LoginForm.EmailConditionsMatchPattern | component/LoginForm.tsx:19 | the address passes `^[^\s@]+@[^\s@]+\.[^\s@]+$` iff it has no whitespace, exactly one `@` not at the start, and a `.` with a character on each side after the `@` |
| LoginForm.OccursOnce | component/LoginForm.tsx:19 | a character occurs exactly once iff it occurs nowhere else |
| LoginForm.ComposedAddressAccepted | component/LoginForm.tsx:19 | word `@` word `.` word is always valid |
| LoginForm.NoAtRejected | component/LoginForm.tsx:19 | an address without `@` is refused |
| LoginForm.BadEmailRejected | component/LoginForm.tsx:19 | `bad-email` is refused |
| LoginForm.NoDotInDomain | component/LoginForm.tsx:19 | an address with no inner `.` after its `@` is refused |
| LoginForm.DotAfterAtRejected | component/LoginForm.tsx:19 | `wrongemail@.com` is refused |
| LoginForm.ShortPasswordRejected | component/LoginForm.tsx:20-21 | a password shorter than 6 characters is refused with any address |
| LoginForm.Form.constructor | component/LoginForm.tsx:10-16 | the fields start from the props, defaulting to `''`, and `valid` starts false |
| LoginForm.Form.RunEffect | component/LoginForm.tsx:18-22 | `valid` becomes the pattern test and `password.length >= 6` |
| LoginForm.Form.ChangeEmail | component/LoginForm.tsx:18-22 | typing an address recomputes `valid` |
| LoginForm.Form.ChangePassword | component/LoginForm.tsx:18-22 | typing a password recomputes `valid` |
| LoginForm.Form.Submit | component/LoginForm.tsx:24-29 | `onSubmit(email, password)` runs iff there is a callback and the form is valid |
| LoginForm.Form.SubmitDisabled | component/LoginForm.tsx:50 | definition of `disabled={!valid}` |
| LoginForm.MountEmpty | component/LoginForm.tsx:10-22 | a form mounted empty has its button disabled |
| LoginForm.EnterAndSubmit | component/LoginForm.tsx:18-29 | valid credentials enable the button, and submit hands over exactly them |
| SearchFilter.Search | component/SearchFilter.tsx:8-10 | definition of the filter by lower-cased `includes`; its properties are the lemmas below |
| SearchFilter.MatchesQuery | component/SearchFilter.tsx:9 | definition of the item test: the lower-cased item includes the lower-cased query |
| SearchFilter.Filtered | component/SearchFilter.tsx:8-10 | definition of `filtered`: the search over the five sample items |
| SearchFilter.SearchIsSubsequence | component/SearchFilter.tsx:8-10 | the results are an order-preserving subsequence of the items |
| SearchFilter.SearchMembership | component/SearchFilter.tsx:9 | an item is listed iff its lower-cased text contains the lower-cased query |
| SearchFilter.EmptyQueryShowsAll | component/SearchFilter.tsx:6-10 | the empty query lists every item in order |
| SearchFilter.EmptyQueryShowsSamples | component/SearchFilter.tsx:3-10 | initially Apple, Banana, Cherry, Date and Elderberry are listed in order |
| SearchFilter.CaseInsensitive | component/SearchFilter.tsx:9 | the results depend only on the lower-cased query |
| SearchFilter.MissingCharNoMatch | component/SearchFilter.tsx:9 | an item lacking one of the query's letters, in either case, does not match |
| SearchFilter.OnlyFirstMatches | component/SearchFilter.tsx:8-10 | when the first item lower-cases to the lower-cased query, and no later item has a character that lower-cases like some one character of the query, the first item is the single result |
| SearchFilter.AppleShowsApple | component/SearchFilter.tsx:3-10 | the query "Apple" lists exactly Apple |
| Stepper.Counter.constructor | component/stepper.tsx:8-9 | the count starts at the prop, defaulting to 0 |
| Stepper.Counter.Increment | component/stepper.tsx:11-15 | the count grows by exactly 1, and `onChange` gets the new count |
| Stepper.Counter.Decrement | component/stepper.tsx:17-21 | the count drops by exactly 1, with no lower bound, and `onChange` gets the new count |
| Stepper.IncrementThenDecrement | component/stepper.tsx:11-21 | plus then minus restores the count |
| Stepper.BelowZero | component/stepper.tsx:17-21 | a fresh counter goes to -1 |
| ButtonToggle.Label | component/ButtonToggle.tsx:12 | definition of the caption: "ON" iff on, "OFF" iff off |
| ButtonToggle.Toggle.constructor | component/ButtonToggle.tsx:7-8 | it starts at the `toggle` prop, defaulting to off |
| ButtonToggle.Toggle.Click | component/ButtonToggle.tsx:11 | a click negates the state |
| ButtonToggle.Toggle.Caption | component/ButtonToggle.tsx:12 | definition of the caption shown: `Label` of the current state |
| ButtonToggle.ClickTwice | component/ButtonToggle.tsx:11-12 | two clicks restore the state and the caption |

## Left out

- Rendering: JSX, inline styles, CSS, `data-cy` attributes, and the step components and tab panels rendered inside widgets.
- DataTable.TotalPages: requires `pageSize > 0`, as do `DataTable.PageRows` and `DataTable.Table.constructor`. The component accepts `pageSize={0}`, which shows "Page 1 of Infinity", or "Page 1 of NaN" with no rows. Infinity and NaN are not modelled.
- Numbers: JavaScript `number` props become Dafny `int`. This covers Stepper's count, DataTable's `pageSize` and FileUpload's `maxSize`. Non-integer props and floating-point rounding (stepping by 0.1, say) are lost.
- Values.FieldText: reads every key the row does not have as `undefined`. In JavaScript a key inherited from `Object.prototype` reads otherwise: `String(row["toString"])` is the function's source text and `String(row["__proto__"])` is "[object Object]". So a column keyed "constructor" filters and sorts on other text in the component.
- Identity: rows and files are values, not object references. DataTable's row click hands over a row equal to the one shown, and stability among duplicate rows holds up to equality.
- DataTable: `pageSize`, `columns` and `onRowClick` are fixed after mounting. Only a new `data` prop is modelled (`DataTable.Table.SetData`).
- MultiStepForm.ProgressPercentage: an exact real, not a floating-point number.
- Unicode: `toLowerCase` is modelled on ASCII letters only. The string `<` compares characters, not UTF-16 code units. `password.length` counts characters.
- Cell values: they are strings, integers, booleans or `null`. Floating-point numbers and objects are not modelled, and neither is their `String(...)` form.
- DataTable: the sort works in place on a private copy. The model uses a pure stable sort of that copy, since no one else can see the copy.
- DataTable: the `useMemo` caching is left out. The view is recomputed on every render, which gives the same rows.
- DataTable: column headers and their `sortable`/`filterable` flags only choose which controls render. Handlers accept any column key, as the code does.
- Tabs: moving DOM focus (`tabRefs...focus()`) and `preventDefault` are DOM plumbing. Only the `focusedTab` state is modelled.
- Tabs.TabList.KeyDown: the thrown `TypeError` is an outcome flag. The exception's propagation is not modelled.
- MultiStepForm: the wizard requires at least one step, because the code reads `steps[0]` while rendering. The `steps` prop is fixed.
- FileUpload: the MIME match `file.type.match(accept.replace('*', '.*'))` is the `acceptsType` parameter of the configuration, not a regular-expression engine.
- FileUpload.Validate: returns the error's kind, file name and limit. It does not build the message text, because the size figure is a floating-point division.
- FileUpload: `FileReader` previews, the `await` between files, drag-over state, the hidden input and `formatFileSize` are left out. So are concurrent batches, since the model runs `processFiles` to completion.
- FileUpload.Uploader.HandleUpload: `uploading` is set and cleared within one handler. The model shows only its final value.
- Toast: the auto-dismiss timer, the exit animation (`isExiting`), the container's positions, and `onClose`.
- Toast: `Date.now()` is the `now` parameter.
- Rating: `toFixed` value text, sizes, colours and the star character. Props are fixed after mounting.
- LoginForm: the effect runs right after each change, as React does before the next event.
- Modal, Slider, UserCard and UserCardForm are not part of this model. Neither are the app shell, the test specifications and the build scripts.
