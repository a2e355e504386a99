# PixelBooth console: a Dafny model of its state logic

PixelBooth is a management console for an unattended photo-booth kiosk. Most of it is view markup. This project
models the few pieces of it that change state:

- **App** (`app.dfy`, App.tsx): the eight initial photos and the initial booth status. It also models the
  three-second telemetry update, which may lower the paper level by one point (never going below 0) and may count one more
  session, and `handleDeletePhoto`, which filters the photo list by id.
- **Remote** (`remote_view.dfy`, components/RemoteView.tsx): the capture countdown and the flash switch. Each press
  of the capture button shows 3 and starts an interval with its own local `count`. Each firing of that interval
  lowers `count` by one and shows it. When `count` reaches 0 the countdown goes back to null and the interval
  clears itself. The timer is an explicit `Tick(i)` call that fires the i-th interval still scheduled.
- **Gallery** (`gallery_view.dfy`, components/GalleryView.tsx): the selected photo, the busy flag and the caption
  shown. Its operations are select, close, the two halves of the caption request, the caption button (disabled while
  busy) and delete. Delete goes through App's deletion, which is the `onDelete` callback.
- **Settings** (`settings_view.dfy`, components/SettingsView.tsx): five switches, four of them with a row on screen, and `toggle`.
- **Gemini** (`gemini_service.dfy`, services/geminiService.ts): `analyzePhoto` as a total function. Any failure
  yields one fixed caption. `urlToBase64`'s prefix strip is modelled as JavaScript's `split(',')[1]`.
- **Types** (`types.dfy`, types.ts): the record types. `revenue` and the photo timestamps are opaque wrappers that
  are only copied, apart from the initial photos' stagger.

Inputs replace the parts of the program that are not logic:

- The two `Math.random()` draws of the telemetry update are booleans.
- `Date.now()`, read once per initial photo, is a sequence `clock` of eight readings.
- `fetch`/`FileReader`, the model call and `JSON.parse` are function parameters that either return a value or fail.

The code does not do the following, so the model does not assert it:

- It does not create a photo on capture and does not touch `sessionCount`. The shutter is only a comment
  (RemoteView.tsx:16).
- It does not cancel a countdown. The Reset button has no handler.
- It does not reject a second press during a countdown. That press starts a second interval, and both intervals then
  write `countdown`.
- It keeps no Pending/Done/Failed analysis state per photo, and it never writes a caption back into a `Photo`.
- It has no guard against a second caption request except the caption button, which is disabled while a request is
  in flight.

## Model

| member | source | states |
|---|---|---|
| `App.InitialPhotos` | App.tsx:10-14 | there are exactly 8 initial photos; photo i has id `photo-i`, has url `https://picsum.photos/400/600?random=i`, is stamped i·15 minutes before its own clock reading `clock[i]`, and has no caption and no printing flag |
| `App.InitialPhotosUnique` | App.tsx:10-14 | the initial photo ids are pairwise distinct |
| `App.InitialStatus` | App.tsx:16-22 | the booth starts online and Ready, with paper 45, 142 sessions and revenue 850, which satisfies the status invariant |
| `App.TickStatus` | App.tsx:33-37 | after one update the paper level is ≥ 0; from a non-negative level it is the old level or one less, and it drops exactly when paper was drawn and some was left; the session count is the old one or one more, and rises exactly when a session was drawn; online flag, printer status and revenue are unchanged |
| `App.RunTicks` | App.tsx:31-38 | over repeated interval firings the session count grows by at most one per firing, the paper level is non-negative once any firing ran, and online flag, printer status and revenue stay as they were |
| `App.RunTicksBounds` | App.tsx:35-36 | from a valid status, any sequence of updates keeps the paper level in [0,100], never raises it, lowers it by at most one per update, never lowers the session count, raises it by at most one per update, and leaves online flag, printer status and revenue alone |
| `App.WithoutId` | App.tsx:43 | a photo survives the filter exactly when it was in the list and its id differs from the deleted one |
| `App.WithoutIdIsSubsequence` | App.tsx:43 | the surviving photos keep their original relative order: the filtered list is a subsequence of the old one |
| `App.WithoutIdAppend` | App.tsx:43 | filtering a concatenation is concatenating the filtered parts |
| `App.WithoutIdUnchanged` | App.tsx:43 | the filter returns the list unchanged exactly when no photo has that id |
| `App.WithoutIdIdempotent` | App.tsx:42-44 | deleting the same id twice equals deleting it once |
| `App.WithoutIdKeepsUnique` | App.tsx:43 | deletion keeps the photo ids pairwise distinct |
| `App.AppState.constructor` | App.tsx:26-27 | the state cells start as the initial status and the initial photos, and the invariant holds |
| `App.AppState.Tick` | App.tsx:31-38 | one interval firing replaces the status by the updated one and leaves the photos alone; the invariant is kept |
| `App.AppState.DeletePhoto` | App.tsx:42-44 | the photo list becomes the filtered list and the status is untouched; the invariant is kept |
| `Remote.Fire` | components/RemoteView.tsx:12-19 | a firing on `count` clears the interval exactly when `count` was 1; otherwise the interval keeps running with `count` one lower, which is never 0 |
| `Remote.FireN` | components/RemoteView.tsx:11-20 | with no firing the count is unchanged; while the interval runs it has lost exactly one per firing |
| `Remote.FireNFrom` | components/RemoteView.tsx:11-20 | an interval whose count is c ≥ 1 shows c−k after k < c firings and has cleared itself after c firings; later firings change nothing |
| `Remote.CountdownFromStart` | components/RemoteView.tsx:8-21 | a press shows 3 at once, then 2 and 1 after the first two firings, and null from the third firing on |
| `Remote.CountdownInRange` | components/RemoteView.tsx:9-19 | at every step of a press's countdown the value is null or one of 1, 2, 3, and never 0 |
| `Remote.Displayed` | components/RemoteView.tsx:34 | the number is shown only when the countdown holds a non-zero value; otherwise the live-preview badge is shown |
| `Remote.DisplayedInRange` | components/RemoteView.tsx:34 | every countdown value the screen can hold is displayed as it is |
| `Remote.AfterFire` | components/RemoteView.tsx:13-14 | after a firing, that interval holds its new count, or is removed once it cleared itself; every other interval keeps its count and its place |
| `Remote.RemoteView.constructor` | components/RemoteView.tsx:5-6 | the screen starts with no countdown, the flash on and no interval scheduled |
| `Remote.RemoteView.HandleCapture` | components/RemoteView.tsx:8-11 | a press sets the countdown to 3 and schedules one more interval with count 3, whatever is already running; the flash is unchanged; only the screen's own state changes |
| `Remote.RemoteView.Tick` | components/RemoteView.tsx:11-20 | a firing lowers that interval's count by one; the countdown becomes the new count, or null with the interval removed when the count reaches 0; the flash is unchanged and the range invariant is kept |
| `Remote.RemoteView.ToggleFlash` | components/RemoteView.tsx:46 | the flash flag flips and the countdown and intervals stay as they were |
| `Remote.RemoteView.CaptureCycle` | components/RemoteView.tsx:8-21 | with nothing running, a press followed by three firings displays 3, then 2, then 1 (returned as the three displayed values), and ends with a null countdown and no interval left |
| `Gallery.GalleryView.constructor` | components/GalleryView.tsx:12-14 | nothing is selected, the screen is not busy and no caption is shown |
| `Gallery.GalleryView.PhotoClick` | components/GalleryView.tsx:16-19 | the clicked photo becomes the selection and the previous caption is cleared; the photos are unchanged |
| `Gallery.GalleryView.BeginAnalyze` | components/GalleryView.tsx:21-24 | with no selection nothing changes and no request is made; otherwise the screen becomes busy and the selected photo's url is requested; selection, caption and photos are unchanged |
| `Gallery.GalleryView.FinishAnalyze` | components/GalleryView.tsx:24-26 | the arriving result becomes the shown caption and the screen stops being busy; the photos are unchanged |
| `Gallery.GalleryView.Analyze` | components/GalleryView.tsx:21-27 | the whole handler run against the captioning service: with no selection nothing changes; with one, the caption shown is the service's answer for the selected url, which is the fallback or a parsed reply, and the screen is not left busy; photos are unchanged |
| `Gallery.GalleryView.ClickAnalyze` | components/GalleryView.tsx:103-104 | the button is disabled while a caption request is in flight, so a press then does nothing; otherwise it starts the request as `BeginAnalyze` does |
| `Gallery.GalleryView.DoubleClickAnalyze` | components/GalleryView.tsx:103-104 | two presses before the caption arrives produce at most one request: the second press requests nothing; afterwards the screen is busy exactly when it was busy before or a photo was selected, and selection and caption are unchanged |
| `Gallery.GalleryView.Close` | components/GalleryView.tsx:64 | closing clears only the selection; the shown caption and the busy flag persist |
| `Gallery.GalleryView.Delete` | components/GalleryView.tsx:120-123 | App's photo list loses the selected photo's id, App's status is untouched, and then the selection is cleared |
| `Settings.InitialConfig` | components/SettingsView.tsx:38-44 | every switch starts on except auto-print |
| `Settings.Toggle` | components/SettingsView.tsx:46-48 | toggling a key negates that switch and leaves every other switch unchanged |
| `Settings.ToggleTwice` | components/SettingsView.tsx:46-48 | toggling the same key twice restores the configuration |
| `Gemini.Split` | services/geminiService.ts:19 | splitting yields at least one piece, and no piece contains the separator |
| `Gemini.JoinSplit` | services/geminiService.ts:19 | splitting loses nothing: re-joining the pieces with the separator gives back the text |
| `Gemini.SplitJoin` | services/geminiService.ts:19 | joining separator-free pieces and splitting again gives back the pieces |
| `Gemini.StripDataUrlPrefix` | services/geminiService.ts:19 | the strip is undefined exactly when the data URL has no comma; otherwise the piece it returns has no comma |
| `Gemini.StripOneComma` | services/geminiService.ts:19 | for a data URL with exactly one comma, the strip returns the text after that comma |
| `Gemini.StripFirstPiece` | services/geminiService.ts:19 | with further commas, the strip returns only the text between the first and second comma |
| `Gemini.UrlToBase64` | services/geminiService.ts:11-24 | the conversion fails exactly when reading the image fails; otherwise it yields the stripped data URL |
| `Gemini.CaptionRequest` | services/geminiService.ts:30-59 | the model call carries the stripped payload unchanged, with model `gemini-2.5-flash`, image type `image/jpeg`, the fixed prompt and a JSON answer type |
| `Gemini.TryAnalyze` | services/geminiService.ts:27-64 | a failed image read makes the `try` block fail; the block succeeds only when the image was read, the model answered a non-empty text for the stripped payload, and that text parsed to the returned value |
| `Gemini.FallbackResult` | services/geminiService.ts:68-71 | the fallback is caption "Looks like a great time!" with tags #photobooth, #fun and #memories: a non-empty caption and three hashtags |
| `Gemini.AnalyzePhoto` | services/geminiService.ts:26-73 | the result is always a value, either the fixed fallback or exactly what parsing some non-empty response text produced |
| `Gemini.AnalyzeFailures` | services/geminiService.ts:27-72 | a failed image read, a failed model call, a missing response text, an empty response text or a failed parse each yield the fallback |
| `Gemini.AnalyzeSuccess` | services/geminiService.ts:61-64 | when every step succeeds on a non-empty text, the parsed value is returned unchanged, with no schema check |

## Left out

- Rendering, styling, the bottom navigation and tab switching (App.tsx:46-89, BottomNav.tsx) are out of scope. So is the
  dashboard (DashboardView.tsx), whose chart data, low-paper colour and revenue formatting are display only.
- `setInterval`, `clearInterval` and the `useEffect` teardown are scheduling plumbing. Each firing is an explicit
  `Tick` call. An interval that cleared itself is removed from `intervals` and can no longer be fired.
- `Remote.RemoteView.Tick` requires that the fired interval is still scheduled, since a scheduler only fires live
  intervals. The order in which several live intervals fire is the caller's choice.
- `Math.random()` and its thresholds (10% and 5%) are not modelled. Each draw is a boolean input.
- `fetch`, `blob()`, `FileReader`, the model SDK and `JSON.parse` are foreign calls. They are function parameters
  that return a value or fail. The response schema object and the `console.error` log are not modelled.
- `Gemini.AnalyzePhoto`: `JSON.parse` can return a JavaScript value of any shape, and the `as AiAnalysisResult` cast
  lets it through unchecked. The model's `parse` can only return a caption-and-tags record, so values of other
  shapes are not represented.
- Async interleaving in `handleAnalyze` is not modelled. Start and completion are two separate methods, and nothing
  relates a result to the photo selected when it arrives.
- `revenue` (a JavaScript number) and `Date` timestamps are carried as opaque wrappers without arithmetic. Apart from
  the initial photos' stagger, these values are only copied.
- `paperLevel` and `sessionCount` are unbounded integers. The source's floating-point numbers could hold fractions
  that the core never produces.
