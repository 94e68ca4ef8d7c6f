# nutrition_wallet core, modelled in Dafny

This project models the parts of the nutrition_wallet web application that
hold its logic:

- **The background line animation** of the sign-in pages (`lines.js`). On load
  and on every resize it builds a set of *meandering paths* from the edges of
  the drawing surface. Each path grows at 45 px/s, one 10 px segment at a time.
  After every segment it turns onto the other axis, and it finishes once it has
  committed its target number of segments. A frame loop renders every path
  once per frame. It stops at the first frame after one that found every path
  finished, or at the first frame 5000 ms or more after its recorded start.
  - `LinePath` models one path. `PathState` is the value view and
    `RenderPathStep` is one render. The class `MeanderingPath` keeps the same
    state in mutable fields.
  - `LineAnimation` models the shared animation state and its handlers. On
    values it has `InitialPaths`, `FrameStep` and `Resize`. The class
    `Animation` has the fields and methods.
- **The nutrition-label parser of the OCR endpoint** (`ocr.py`), in
  `NutritionOcr`. Eleven regular expressions are searched in the lower-cased
  text. The first match of each fills one key of a twelve-key result. The
  number of keys found gives a confidence grade. Each regular expression is
  modelled by a hand-written matcher with the same leftmost and greedy
  behaviour, including the two places where backtracking matters.
- **The sign-up and sign-in endpoints** (`auth.py`), in `AuthRouter`. The
  module covers input validation and how service errors become HTTP errors.
- **The submit handler of the two account-creation pages**, in `SignupPage`.
  The handler has a password gate and a chain that rewrites the error message.
  Both pages share one model.
- **Row selection in the food log table** (`Table.tsx`), in `FoodTable`.
- **The history sidebar** (`SideBar.tsx`), in `HistorySidebar`. It groups
  nutrition logs by date and reformats `YYYY-MM-DD` labels as `MM-DD-YYYY`.
  It also includes the goal editor's `updateGoal`.

`Strings` and `Wrappers` hold the shared string helpers and `Option`.

Where the source does something step by step, the model keeps that form. The
animation's objects are classes whose methods update fields. `renderPath`'s
roll-over loop, the path-generation loops, the frame's render pass, the
parser's pattern loop and the sidebar's grouping loop are `while` loops.
Each of these methods is proved against a function on values. The properties
are then proved about that function.

Inputs that come from the host are parameters:

- the window size;
- frame timestamps;
- `requestAnimationFrame` handles;
- the values of `Math.random()`:
  - a draw in [0, 1) for each new path's target;
  - a coin per turn, `true` when the draw exceeds 0.5;
- what the authentication service and database answer.

## Model

| member | source | states |
|---|---|---|
| LinePath.Turn | frontend/public/lines.js:149-153 | the new direction is a unit vector on the other axis than the old one; along the new axis it is +1 when the coin is `true` and -1 otherwise |
| LinePath.JsRound | frontend/public/lines.js:140-143 | `Math.round`: the result is within half a unit of the input, and halves round up |
| LinePath.BaseSegmentCount | frontend/public/lines.js:136-139 | the base segment count is between 0 and 70 |
| LinePath.TotalSegments | frontend/public/lines.js:136-143 | a path's target is between -5 and 75 segments |
| LinePath.TotalSegmentsRange | frontend/public/lines.js:136-143 | the base count is `min(floor(width / 14), 70)`; the target differs from it by at most 5 either way |
| LinePath.Accumulate | frontend/public/lines.js:158-160 | only the progress changes; a finished path or a `NaN` delta leaves the state as it was |
| LinePath.Commit | frontend/public/lines.js:164-167 | one segment: the current point moves 10 px along the direction and is appended to the points, the direction turns with the coin drawn for this point, and one segment of progress is used up; start, finished flag and target are kept |
| LinePath.RollOver | frontend/public/lines.js:163-168 | after the loop less than one segment is in flight; no point is removed; start, finished flag and target are kept |
| LinePath.FinishCheck | frontend/public/lines.js:186-188 | only the finished flag changes, and it is set afterwards iff it was already or the points reach the target |
| LinePath.RenderPathStep | frontend/public/lines.js:157-189 | a render keeps the start and the target, never removes points, leaves less than a segment in flight, and never unfinishes a path |
| LinePath.Polyline | frontend/public/lines.js:171-183 | the stroked polyline is the start, every committed point, then the tip `current + direction * progress` |
| LinePath.NewPathValid | frontend/public/lines.js:122-133 | a new path with a unit direction satisfies the path invariant `PathValid` |
| LinePath.CommitMeanders | frontend/public/lines.js:163-168 | committing one segment keeps the meander: each step is 10 px along one axis, steps alternate axes, and the current point ends the trace |
| LinePath.ExtendTrace | frontend/public/lines.js:163-167 | one more 10 px step, in the current direction, keeps the trace's axis steps and alternation |
| LinePath.RollOverEffect | frontend/public/lines.js:163-168 | the roll-over loop keeps the meander and leaves less than a segment in flight; it only appends points; from non-negative progress it commits `floor(progress / 10)` segments and keeps the remainder |
| LinePath.RenderPathValid | frontend/public/lines.js:157-189 | a render keeps the invariant and only appends points; the path is finished afterwards iff it was already, or now has at least its target of points |
| LinePath.RenderPathProgressBounds | frontend/public/lines.js:158-168 | with a non-negative delta, progress stays in [0, 10) |
| LinePath.RenderPathCommits | frontend/public/lines.js:158-168 | an unfinished path commits `floor((progress + 45 * delta) / 10)` segments; the rest stays in flight |
| LinePath.NaNDeltaMovesNothing | frontend/public/lines.js:158-160 | a `NaN` delta leaves progress, points, position and direction unchanged |
| LinePath.FinishedPathFrozen | frontend/public/lines.js:158-189 | rendering a finished path changes nothing |
| LinePath.OvershootExample | frontend/public/lines.js:163-188 | a path can commit more points than its target in one render and then finish; the target is a finish threshold, not a cap |
| LinePath.MeanderingPath.constructor | frontend/public/lines.js:122-143 | a new object's state is `NewPath`: at its start, no points, no progress, not finished, with the drawn target |
| LinePath.MeanderingPath.AddNewSegment | frontend/public/lines.js:146-154 | pushes the current point and turns onto the other axis; position and progress unchanged |
| LinePath.MeanderingPath.RenderPath | frontend/public/lines.js:157-189 | the new state is `RenderPathStep` of the old one, and the returned polyline is start, points, then the tip in flight |
| LineAnimation.PathCount | frontend/public/lines.js:42-43 | `floor(size * 2 * 0.05)` is `size / 10` |
| LineAnimation.HorizontalPath | frontend/public/lines.js:47-57 | a horizontal path starts at its current point, heading along the x axis, with no points and the target drawn for the surface width |
| LineAnimation.VerticalPath | frontend/public/lines.js:62-72 | a vertical path starts at its current point, heading along the y axis, with no points and the target drawn for the surface width |
| LineAnimation.InitialPaths | frontend/public/lines.js:41-74 | a generation has `height / 10 + width / 10` paths |
| LineAnimation.HorizontalPathShape | frontend/public/lines.js:46-58 | a horizontal path is fresh; the first half start on the left edge heading right, the rest on the right edge heading left |
| LineAnimation.VerticalPathShape | frontend/public/lines.js:61-73 | a vertical path is fresh; the first half start on the top edge heading down, the rest on the bottom edge heading up |
| LineAnimation.InitialPathsShape | frontend/public/lines.js:41-74 | H/10 horizontal paths come first, then W/10 vertical ones; each is fresh, on its edge and heading as its half requires |
| LineAnimation.InitialPathAt | frontend/public/lines.js:41-74 | path k of a generation is horizontal path k, or past those vertical path k - H/10 |
| LineAnimation.InitialPathsExample | frontend/public/lines.js:41-74 | a 1000 x 800 surface gets 180 paths; paths 0, 40, 80 and 130 start where the two halves of each loop put them |
| LineAnimation.FrameStart | frontend/public/lines.js:83-85 | a recorded nonzero start time is the one used; the start used is 0 only when the frame time is 0 |
| LineAnimation.RenderAll | frontend/public/lines.js:103-106 | rendering every path neither adds nor removes a path |
| LineAnimation.DrawStep | frontend/public/lines.js:96-112 | keeps the number of paths, the start time and the size; the previous frame time becomes now; completion is reported only when it already was, or every path had finished before the render |
| LineAnimation.FrameStep | frontend/public/lines.js:81-113 | keeps the number of paths and the size; afterwards a start time is recorded, and it is 0 only for a frame at time 0; completion is reported only when it already was, every path had finished, or the 5000 ms ceiling was reached |
| LineAnimation.Resize | frontend/public/lines.js:24-38 | after a resize the loop is running, the size is the new one, and there are `height / 10 + width / 10` paths |
| LineAnimation.FirstFrameStarts | frontend/public/lines.js:83-108 | the first frame after a start records its timestamp, renders every path and reschedules |
| LineAnimation.StartTimestampKept | frontend/public/lines.js:83-85 | a recorded nonzero start time is never replaced |
| LineAnimation.CeilingStops | frontend/public/lines.js:87-94 | a frame 5000 ms or more after the start marks completion and stops the loop without rendering |
| LineAnimation.RunningFrame | frontend/public/lines.js:96-108 | a frame of an incomplete animation within the ceiling: delta is seconds since the previous frame; every path renders with it; `isComplete` is read from the paths before the render; the loop reschedules |
| LineAnimation.CompletedFrameStops | frontend/public/lines.js:109-112 | a frame after completion clears `isRunning` and the handle and renders nothing |
| LineAnimation.RenderAllValid | frontend/public/lines.js:103-106 | rendering every path keeps every path's invariant |
| LineAnimation.FrameKeepsPathsValid | frontend/public/lines.js:81-113 | a frame never adds or removes a path and keeps every path's invariant |
| LineAnimation.RenderAllFrozen | frontend/public/lines.js:103-106 | rendering paths that have all finished changes none of them |
| LineAnimation.CompletionTakesOneMoreFrame | frontend/public/lines.js:99-112 | once all paths have finished, the next frame only sets `isComplete` and reschedules; the frame after that stops the loop |
| LineAnimation.UnfinishedPathDelaysCompletion | frontend/public/lines.js:102-106 | a frame that starts with an unfinished path does not report completion |
| LineAnimation.FrameKeepsScheduled | frontend/public/lines.js:81-115 | a frame keeps "running iff a frame is requested" |
| LineAnimation.ResizeEffect | frontend/public/lines.js:24-38 | a resize regenerates valid paths for the new size; it starts a fresh loop only when none is running, and otherwise leaves the running loop's handle, start time and completion alone |
| LineAnimation.Animation.constructor | frontend/public/lines.js:10-38 | the load handler's state is the initial state after one resize |
| LineAnimation.Animation.AddHorizontalPaths | frontend/public/lines.js:46-58 | appends `count` fresh path objects; the k-th new one is horizontal path k; existing entries are kept |
| LineAnimation.Animation.AddVerticalPaths | frontend/public/lines.js:61-73 | appends `count` fresh path objects; the k-th new one is vertical path k; existing entries are kept |
| LineAnimation.Animation.CreateInitialPaths | frontend/public/lines.js:41-74 | appends fresh objects whose states are `InitialPaths` for the current size, in order; existing entries are kept |
| LineAnimation.Animation.StartAnimationLoop | frontend/public/lines.js:115 | stores the handle of the requested frame |
| LineAnimation.Animation.RegeneratePaths | frontend/public/lines.js:25-30 | stores the new size and replaces the paths by a fresh generation; nothing else changes |
| LineAnimation.Animation.Restart | frontend/public/lines.js:32-37 | marks the loop running, clears completion and start time, and stores the new handle |
| LineAnimation.Animation.UpdateCanvasDimensions | frontend/public/lines.js:24-38 | the new state is `Resize` of the old one |
| LineAnimation.Animation.RenderPaths | frontend/public/lines.js:102-106 | `isComplete` becomes whether every path had finished before the pass; every path's new state is `RenderPathStep` of its old state |
| LineAnimation.Animation.RenderAndReschedule | frontend/public/lines.js:99-108 | renders every path, sets `isComplete` from the states before, and stores the new handle; nothing else changes |
| LineAnimation.Animation.StopLoop | frontend/public/lines.js:109-112 | clears `isRunning` and the handle |
| LineAnimation.Animation.Tick | frontend/public/lines.js:96-97 | the delta is the seconds since the previous frame; the previous frame time becomes now |
| LineAnimation.Animation.DrawFrame | frontend/public/lines.js:96-112 | the new state is `DrawStep` of the old one |
| LineAnimation.Animation.RenderFrame | frontend/public/lines.js:81-113 | the new state is `FrameStep` of the old one; path objects are neither added nor removed |
| NutritionOcr.Run | backend/app/routers/ocr.py:44-54 | a character-class run is maximal: every character in it is in the class, and the next one is not |
| NutritionOcr.RestStart | backend/app/routers/ocr.py:54 | `[:\s]+([^\n]+)` backtracking: the group starts at the last position within the separator run that is not a newline; every later position is a newline or the end |
| NutritionOcr.NumberEnd | backend/app/routers/ocr.py:45-53 | a greedy `\d+\.?\d*` that matches ends after its start and within the text |
| NutritionOcr.ValueAt | backend/app/routers/ocr.py:44-54 | a value needs at least one `[:\s]` character after the keyword and captures a non-empty group |
| NutritionOcr.MatchAt | backend/app/routers/ocr.py:44-54 | a match of a keyword spelling starts before the end of the text and captures a non-empty group |
| NutritionOcr.SearchFrom | backend/app/routers/ocr.py:59 | `re.search`: the match found is at the leftmost position where the pattern matches |
| NutritionOcr.StoredValue | backend/app/routers/ocr.py:60-66 | the stored value is text iff the key is `serving_size` (or `name`); a number keeps exactly the matched group |
| NutritionOcr.Parsed | backend/app/routers/ocr.py:20-70 | the parsed result has exactly the twelve keys |
| NutritionOcr.EmptyData | backend/app/routers/ocr.py:24-37 | the initial result has the twelve keys, all `None` |
| NutritionOcr.FillStep | backend/app/routers/ocr.py:58-68 | one round of the loop fills exactly the key of its pattern, with its first match |
| NutritionOcr.ParseNutritionInfo | backend/app/routers/ocr.py:20-70 | the loop's result is `Parsed(text)`: each key holds its pattern's first match in the lower-cased text, or `None` |
| NutritionOcr.ParsedShape | backend/app/routers/ocr.py:24-37 | the result always has exactly the twelve keys, and `name` is always `None` |
| NutritionOcr.ParsedValue | backend/app/routers/ocr.py:58-66 | a key with a pattern is set iff the pattern matches; its value is the stored form of the first match's group |
| NutritionOcr.CaseInsensitive | backend/app/routers/ocr.py:40 | texts equal up to ASCII letter case parse the same |
| NutritionOcr.ParsedOfLowered | backend/app/routers/ocr.py:40 | lower-casing the text first changes nothing |
| NutritionOcr.NumericValueShape | backend/app/routers/ocr.py:44-64 | a numeric group follows a non-empty separator run, is a decimal literal that `float` accepts, and is not followed by a digit; `\d+` groups are all digits; `mg?` groups are followed by 'm' |
| NutritionOcr.WholeNumberShape | backend/app/routers/ocr.py:44 | the `calories` group has that shape |
| NutritionOcr.DecimalShape | backend/app/routers/ocr.py:45-53 | the `\d+\.?\d*` groups have that shape |
| NutritionOcr.DigitRunShape | backend/app/routers/ocr.py:44 | a greedy `\d+` is all digits, a decimal literal, and not followed by a digit |
| NutritionOcr.NumberEndShape | backend/app/routers/ocr.py:45-53 | a greedy `\d+\.?\d*` is a decimal literal not followed by a digit |
| NutritionOcr.ServingSizeShape | backend/app/routers/ocr.py:54 | the serving-size group is non-empty, has no newline, runs to the end of its line, and starts after separator characters only |
| NutritionOcr.FieldsFoundAtMostEleven | backend/app/routers/ocr.py:122 | at most eleven fields are ever counted, because `name` has no pattern |
| NutritionOcr.CountFound | backend/app/routers/ocr.py:122 | the number of keys holding a value is at most the number of keys counted |
| NutritionOcr.FieldsFound | backend/app/routers/ocr.py:122 | at most twelve fields are counted |
| NutritionOcr.Confidence | backend/app/routers/ocr.py:123 | the grade is one of "high", "medium" and "low" |
| NutritionOcr.ConfidenceGrades | backend/app/routers/ocr.py:123 | the grade is "high" iff at least 5 fields were found, "medium" iff 3 or 4, "low" iff at most 2 |
| AuthRouter.SignUp | backend/app/routers/auth.py:17-62 | every failure is a 400; sign-up succeeds iff the password has at least 6 characters, the username 3-20, a user was created and the profile inserted; with valid input, an exception from the sign-up call becomes a 400 whose detail is its classification |
| AuthRouter.ClassifySignUpError | backend/app/routers/auth.py:52-62 | the detail of a sign-up exception is one of the four fixed texts |
| AuthRouter.ProfileErrorDetail | backend/app/routers/auth.py:42-46 | the taken-username detail is given iff the message mentions a duplicate key or the username constraint; any other detail contains the message |
| AuthRouter.SignIn | backend/app/routers/auth.py:65-82 | a session gives its access token; anything else gives 401 "Invalid email or password" |
| AuthRouter.ShortPasswordFirst | backend/app/routers/auth.py:19-20 | a short password is refused first, whatever else holds |
| AuthRouter.UsernameOutOfRange | backend/app/routers/auth.py:22-23 | with a good password, a username outside 3-20 characters is refused next |
| AuthRouter.NoUserMeansEmailExists | backend/app/routers/auth.py:33-34 | a sign-up answer without a user reports an existing email |
| AuthRouter.ProfileErrorsNotReclassified | backend/app/routers/auth.py:37-51 | a profile-insert error goes out as its own detail and is not classified again by the outer handler |
| AuthRouter.DuplicateUsernameReported | backend/app/routers/auth.py:44-45 | a duplicate-key insert error reports a taken username |
| AuthRouter.OtherProfileErrorKeepsMessage | backend/app/routers/auth.py:46 | any other insert error is the fixed prefix followed by the service's message |
| AuthRouter.ClassificationIgnoresCase | backend/app/routers/auth.py:53 | messages equal up to ASCII case get the same classification |
| AuthRouter.ClassificationPriority | backend/app/routers/auth.py:52-62 | each of the four details is given iff its rule matches and no earlier rule does |
| SignupPage.HandleSubmit | frontend/src/app/create-account/page.tsx:23-52 | the error is cleared first; `signUp` is called iff the password is at least 6 UTF-16 code units long (`length`); then the length error, nothing more, or the rewritten message is shown |
| SignupPage.AstralPasswordReachesSignUp | frontend/src/app/create-account/page.tsx:26 | three characters outside the Basic Multilingual Plane are 6 code units, so such a password reaches `signUp` |
| SignupPage.ShortPasswordNeverCallsSignUp | frontend/src/app/create_account/page.tsx:25-29 | a password under 6 UTF-16 code units never reaches `signUp` and leaves the length error on the form |
| SignupPage.SuccessClearsError | frontend/src/app/create_account/page.tsx:25-32 | a successful submit leaves no error shown |
| SignupPage.DuplicateKeyWins | frontend/src/app/create-account/page.tsx:35-36 | a message mentioning "duplicate key" always shows "Username or email already exists" |
| SignupPage.InvalidCredentialsRule | frontend/src/app/create-account/page.tsx:41-44 | either credential text, with no earlier rule matching, shows "Invalid email or password" |
| SignupPage.PassThroughRule | frontend/src/app/create_account/page.tsx:34-49 | a non-empty message that no rewriting rule matches is shown unchanged; a missing or empty one shows "Authentication failed" |
| SignupPage.ErrorMessage | frontend/src/app/create-account/page.tsx:34-50 | the text shown for a failed sign-up is never empty |
| SignupPage.ErrorMessageRange | frontend/src/app/create_account/page.tsx:34-50 | the shown text is the message itself or one of the three fixed texts |
| FoodTable.Without | frontend/src/components/dashboard/Table.tsx:70 | `filter(item !== id)` removes every copy of `id`, keeps every other value, and never grows the list |
| FoodTable.WithoutConcat | frontend/src/components/dashboard/Table.tsx:70 | filtering a concatenation filters each part, so the kept ids stay in their order |
| FoodTable.WithoutAbsent | frontend/src/components/dashboard/Table.tsx:70 | filtering out an absent id changes nothing |
| FoodTable.WithoutKeepsNoDuplicates | frontend/src/components/dashboard/Table.tsx:70 | filtering keeps a repeat-free list repeat-free |
| FoodTable.ToggleRow | frontend/src/components/dashboard/Table.tsx:68-71 | a selected id is removed; an unselected one is appended at the end; every other id keeps its membership |
| FoodTable.ToggleAll | frontend/src/components/dashboard/Table.tsx:73-76 | a full selection becomes empty; any other becomes every row, in table order |
| FoodTable.ToggleRowTwice | frontend/src/components/dashboard/Table.tsx:68-71 | selecting then deselecting a row restores the selection exactly |
| FoodTable.ToggleRowWellFormed | frontend/src/components/dashboard/Table.tsx:68-71 | a row toggle keeps the selection repeat-free and within the table |
| FoodTable.ReachableWellFormed | frontend/src/components/dashboard/Table.tsx:66-76 | every selection reachable by clicks holds each row id at most once and only row ids |
| FoodTable.FoodHistoryIdsDistinct | frontend/src/components/dashboard/Table.tsx:18-63 | the table's row ids are distinct |
| FoodTable.HeaderCheckedIffAllRows | frontend/src/components/dashboard/Table.tsx:79-109 | on a reachable selection, the header is checked iff every row is selected |
| FoodTable.HeaderIndeterminateIffSome | frontend/src/components/dashboard/Table.tsx:110-112 | on a reachable selection, the header shows a dash iff some rows but not all are selected |
| HistorySidebar.BeforeFirst | frontend/src/components/dashboard/SideBar.tsx:108 | `split(c)[0]` is the longest prefix without `c`, followed by `c` or the end |
| HistorySidebar.Split | frontend/src/components/dashboard/SideBar.tsx:122 | `split` gives at least one piece, and no piece contains the separator |
| HistorySidebar.EntryLabel | frontend/src/components/dashboard/SideBar.tsx:115 | a log without a food record is labelled "Unknown: 0 cal"; otherwise the label is the food name, or "Unknown" for an empty name, then ": ", the calories in decimal (as `IntToString` reads back), then " cal" |
| HistorySidebar.EntryFor | frontend/src/components/dashboard/SideBar.tsx:114-118 | an entry carries the label of the log's food record, the log's date key, and a link to that date's table |
| HistorySidebar.Find | frontend/src/components/dashboard/SideBar.tsx:110-114 | `dateMap.has` / `get`: the index of the key's group, or -1 iff no group has that key |
| HistorySidebar.AddEntry | frontend/src/components/dashboard/SideBar.tsx:110-118 | a known key keeps the key order; a new key adds a one-entry group at the end |
| HistorySidebar.GroupLogs | frontend/src/components/dashboard/SideBar.tsx:107-119 | grouping never makes more groups than there are logs |
| HistorySidebar.GroupLogsCharacterised | frontend/src/components/dashboard/SideBar.tsx:105-119 | the keys are the logs' date keys in first-seen order, none twice; each group holds exactly its key's entries in log order; there are as many entries as logs |
| HistorySidebar.GroupsNonEmpty | frontend/src/components/dashboard/SideBar.tsx:128 | every group has an entry, so `links` is never `undefined` |
| HistorySidebar.GroupByDate | frontend/src/components/dashboard/SideBar.tsx:105-119 | the loop builds exactly `GroupLogs(logs)` |
| HistorySidebar.FileEntry | frontend/src/components/dashboard/SideBar.tsx:110-118 | one round of the `forEach` files the entry exactly as `AddEntry` does |
| HistorySidebar.ToNumber | frontend/src/components/dashboard/SideBar.tsx:122 | `Number` reads a digit string as its value, and text holding one of U+001C-U+001F as `NaN` |
| HistorySidebar.DisplayDate | frontend/src/components/dashboard/SideBar.tsx:121-123 | a key without '-' shows `undefined-undefined-` followed by the year, since the month and day are past the end of the split |
| HistorySidebar.DisplayDateMissingDay | frontend/src/components/dashboard/SideBar.tsx:122-123 | a `year-month` key shows the padded month, then `undefined` for the day, then the year |
| HistorySidebar.Pad2 | frontend/src/components/dashboard/SideBar.tsx:123 | `padStart(2, '0')` keeps strings of 2 or more characters and left-pads shorter ones with '0' to length 2 |
| HistorySidebar.SplitThree | frontend/src/components/dashboard/SideBar.tsx:122 | splitting `a-b-c` at '-' gives `[a, b, c]` when no part has a '-' |
| HistorySidebar.DisplayDateWellFormed | frontend/src/components/dashboard/SideBar.tsx:122-123 | a `YYYY-MM-DD` key whose year has no leading zero and at most 15 digits is shown as `MM-DD-YYYY` |
| HistorySidebar.FormatGroups | frontend/src/components/dashboard/SideBar.tsx:121-130 | one item per group, in group order, labelled with its display date, with its entries as links when it has any |
| HistorySidebar.BuildSidebarData | frontend/src/components/dashboard/SideBar.tsx:105-130 | the sidebar is the formatted grouping; it has one item per distinct date, and every item has links |
| HistorySidebar.UpdateGoal | frontend/src/components/dashboard/SideBar.tsx:63-68 | the named goal becomes blank for empty input or the parsed number otherwise; the other goals are unchanged |
| Strings.Lower | backend/app/routers/auth.py:53 | lower-casing keeps the length and maps every character through ASCII `LowerChar` |
| Strings.LowerIdempotent | backend/app/routers/ocr.py:40 | lower-casing twice is lower-casing once |
| Strings.Strip | backend/app/routers/ocr.py:66 | `strip()` gives a slice of the input with no whitespace at either end; everything cut off is whitespace; whitespace is the ASCII set Python uses, U+001C-U+001F included |
| Strings.IntToString | frontend/src/components/dashboard/SideBar.tsx:115 | a printed integer reads back through `DigitsValue`: digits for a non-negative number, a '-' then the digits of its magnitude otherwise, with no leading zero |
| Strings.Utf16Length | frontend/src/app/create-account/page.tsx:26 | JavaScript's `length` is at least the number of characters and at most twice it, and equals it when every character is in the Basic Multilingual Plane |
| Strings.DigitsValueOfNatToString | frontend/src/components/dashboard/SideBar.tsx:122-123 | reading back a printed number gives the number |
| Strings.NatToStringOfDigitsValue | frontend/src/components/dashboard/SideBar.tsx:122-123 | printing the value of a digit string without a leading zero gives the string back |

## Left out

- Drawing on the canvas is left out: `clearRect`, line width, colour and `stroke`. `RenderPath` returns the polyline it would stroke instead.
- The browser's event and frame machinery is left out: `load` and `resize` events, and `requestAnimationFrame` scheduling. The model has one method call per handler run. Frame times, handles and window sizes are parameters.
- `Math.random()` is replaced by injected values: a draw per new path and a coin per turn.
- Floating point is not modelled. Positions, times and deltas are exact reals, so IEEE rounding of `index / count * 2 * height` and of the frame delta is not captured.
- LinePath.MeanderingPath.RenderPath takes `Option<real>`, with `None` standing for `NaN`. The frame loop always passes a number, because its delta comes from two timestamps.
- LineAnimation.Animation.Valid holds only the distinctness of the path objects. The path invariant is proved on the value view (`FrameKeepsPathsValid`, `ResizeEffect`), not kept as a class invariant.
- `RenderPath` does not cap a path at its target: a long frame commits several segments at once, so a path can hold more points than its target (`OvershootExample`).
- A path is marked finished only during a render, so a new path whose target is 0 or less is unfinished until its first render. The invariant therefore states only "finished implies at least the target of points".
- In `scan_nutrition_label`, the Azure OCR calls, polling, timeouts, text assembly and the HTTP error wrapping are left out. Only the field count and the confidence grade (`ocr.py:122-123`) are modelled. `save_food_to_database` is left out; it is database I/O only.
- NutritionOcr.ParseNutritionInfo stores a numeric value as its digits (`Number(digits)`), not as a binary float. `NumericValueShape` proves that every such group is a decimal literal, so the `except` fallback of `ocr.py:67-68` is never reached and is not modelled.
- Only ASCII is handled by the parser and the string helpers. All ASCII whitespace is covered, the information separators U+001C-U+001F included. Python's `lower()`, `\s`, `\d` and `strip()` also act on non-ASCII letters, digits and whitespace such as U+0085 and U+00A0; JavaScript's `Number` also trims non-ASCII whitespace.
- The authentication service and the `profiles` insert are left out. Their outcomes are inputs. The success bodies carry only the message and the access token, not the user object.
- SignupPage.HandleSubmit cannot be given a password holding a lone UTF-16 surrogate, since a Dafny `char` is a Unicode scalar value.
- In the pages, React state, routing, the redirect effect and the JSX are left out. The submit handler's sequence of `setError` values is modelled.
- HistorySidebar.ToNumber models `Number(part)` only for blank text and for digits with surrounding whitespace; a part missing from the split is printed as `undefined` by `PartText`, not passed to `Number`. Other text JavaScript would read as a number, such as `"1.5"`, `"1e3"`, `"0x10"` or `"-3"`, is modelled as `NaN`. Digit strings are read exactly at any length, while JavaScript's `Number` rounds values past 2^53 to the nearest double and `String` prints values of 10^21 and above in exponent form (`1e+21`); `DisplayDate` inherits this, so its year is exact only up to 15 digits. This does not matter for keys taken from timestamps.
- HistorySidebar.EntryLabel takes calories as an integer and prints it exactly through `IntToString`. A fractional calorie value, a `NaN` value for `calories || 0`, the rounding of values past 2^53 and JavaScript's exponent form for values of 10^21 and above (`1e+21`) are not modelled.
- HistorySidebar.UpdateGoal takes `parseFloat(value)` as a real parameter, so a `NaN` result is not represented.
- In the sidebar's fetch handler, the Supabase user check, the query, the error branches that clear the sidebar, the `loading` flag and the `onGoalsChange` effect are left out.
