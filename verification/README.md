# SvityazHOME offline cache and page logic, in Dafny

This project models the client-side core of the SvityazHOME hotel website.

- **The service worker (`sw.js`).** It is modelled as a pure state machine over the origin's
  caches. The caches are a sequence of named caches in creation order, each mapping a URL to a
  response. The network is a total function from URL to an optional response; `None` means the
  fetch rejected.
  - `install` opens the current cache `svityazhome-v12` and `addAll`s the 27-entry precache manifest.
  - `activate` deletes every other cache.
  - `fetch` lets non-GET and cross-origin requests pass through. It sends navigations to
    `networkFirst` and every other request to the inline cache-first strategy. Both
    strategies fall back to the cached `/index.html`.
- **Pure decision logic of `assets/js/main.js`.** This covers the theme preference and
  toggle, the room filter, the booking form's validation chain, the body scroll lock, the
  active navigation link, the header's scrolled flag and the mobile menu that drives the lock.

Modules and files:

| file | module | models |
|---|---|---|
| `wrappers.dfy` | `Wrappers` | `Option`, standing for `null`/`undefined` |
| `cache_storage.dfy` | `CacheStorage` | the Cache API as `sw.js` uses it: `open`, `keys`, `delete`, `match`, `put`, `addAll` |
| `service_worker.dfy` | `ServiceWorker` | the constants, the install, activate and fetch handlers, and both strategies |
| `worker_lifecycle.dfy` | `WorkerLifecycle` | event sequences and properties that span several events |
| `theme.dfy` | `ThemeSwitch` | the theme preference, the effective theme, the toggle and system-scheme changes |
| `room_filter.dfy` | `RoomFilter` | `applyRoomFilter` |
| `booking.dfy` | `Booking` | the submit handler's checks and status message |
| `page_chrome.dfy` | `PageChrome` | `syncBodyLock`, `setActiveNav`, `handleScrollHeader` and the menu clicks |

Platform behaviour the model follows, because the source relies on it:

- `caches.match` returns the first hit across all caches in creation order, not only the
  current cache. A stale version can therefore answer until `activate` has run.
- `caches.open` creates a missing cache and appends it last. A failed install therefore still
  leaves a current cache behind: a new, empty one if none existed, otherwise the old one with
  its contents as before. The manifest's entries are all or nothing, and every other cache
  is untouched.
- `Cache.addAll` rejects, and writes nothing, in three cases:
  - a fetch rejects;
  - a response status is outside 200–299 or is 206;
  - the batch names the same URL twice.

  The manifest has no duplicates (`ServiceWorker.PrecachePathsDistinct`).
- `Cache.put` refuses a 206 (partial content) response. At run time every other resolved
  response is stored, error statuses included. The page is served either way.

Dates in the booking form are whole day numbers. `new Date` is a parameter that maps a field's
text to a day or to the invalid date. An absent field reads as `null`, and `new Date(null)` is
the epoch (day 0), a valid date; the required-field check rejects such a form first. Any comparison with the invalid date is false, so as
written an unparseable check-in date passes both date checks (`Booking.InvalidCheckinIsSubmitted`).
The date inputs normally keep such text out, so this is recorded as the code's behaviour rather
than as a defect.

## Model

| member | source | states |
|---|---|---|
| `CacheStorage.Open` | sw.js:35 | the named cache exists afterwards, with its old contents or empty; earlier caches keep their order; no other name changes |
| `CacheStorage.IndexOfHit` | sw.js:66 | the index is the first cache, in creation order, that holds the URL; none means no cache holds it |
| `CacheStorage.Keys` | sw.js:45 | the keys are as many as the caches, and a name is among them exactly when some cache has it |
| `CacheStorage.Match` | sw.js:66 | a hit is the entry of the first cache, in creation order, that holds the URL; a miss means no cache has one |
| `CacheStorage.Delete` | sw.js:46 | the name disappears; every other name resolves to the same contents; the survivors are caches of the old storage, and `caches.match` answers as before for every URL the deleted caches did not hold; names stay unique |
| `CacheStorage.DeleteKeepsOrder` | sw.js:46 | the caches left by `caches.delete` are a subsequence of the old storage: none is moved, only removed |
| `CacheStorage.DeleteAll` | sw.js:46 | deleting a list of names removes exactly those names; every other name resolves as before, and `caches.match` answers as before for every URL the deleted caches did not hold |
| `CacheStorage.DeleteAllKeepsOrder` | sw.js:45-46 | after deleting several names in turn, the caches left are a subsequence of the old storage |
| `CacheStorage.Put` | sw.js:71 | a put succeeds exactly when the response is not a 206; it sets that URL and leaves every other entry |
| `CacheStorage.StoreAll` | sw.js:36 | after the batch write each URL maps to its fetched response; URLs outside the batch are unchanged |
| `CacheStorage.AddAll` | sw.js:36 | succeeds iff every fetch resolves with an accepted 2xx status and no URL repeats; on success each URL holds its response and nothing else changes |
| `CacheStorage.OpenAndAddAll` | sw.js:35-36 | opening then `addAll` always leaves the cache in place; the batch resolves iff every fetch is accepted and no URL repeats; on success each URL holds its response, on failure the cache's contents are as before; no other cache changes, and the existing caches keep their positions |
| `CacheStorage.DeleteAllExcept` | sw.js:45-46 | deleting every key but one leaves only caches of that name, with unchanged contents; with unique names, at most one |
| `ServiceWorker.PrecacheUrls` | sw.js:2-30 | the resolved manifest has one URL per listed path, and holds exactly the URLs on the worker's origin whose path is listed |
| `ServiceWorker.PrecachePathsDistinct` | sw.js:2-30 | the precache manifest lists no URL twice |
| `ServiceWorker.FallbackIsPrecached` | sw.js:2-30 | the offline document `/index.html` is part of the manifest |
| `ServiceWorker.Install` | sw.js:32-38 | install succeeds iff every manifest fetch is accepted; then the current cache holds each manifest URL's response; on failure the current cache is as it was (or newly empty); other caches never change, and the existing caches keep their positions |
| `ServiceWorker.StaleKeys` | sw.js:46 | the filtered key list holds exactly the names other than the current version |
| `ServiceWorker.Activate` | sw.js:42-50 | only the current version's name can remain, with its contents unchanged; with unique names at most one cache remains |
| `ServiceWorker.StoreCopy` | sw.js:71 | the current cache is opened and gets the copy under the URL unless it is a 206; no other entry or cache changes, the existing caches keep their positions, and `caches.match` answers as before for every other URL |
| `ServiceWorker.CacheFirst` | sw.js:65-76 | a hit in any cache is served with no state change; on a miss the network response of any status is served, and stored unless it is a 206; if the network rejects, the cached offline document (maybe none) is served and nothing changes |
| `ServiceWorker.NetworkFirst` | sw.js:79-90 | a resolved fetch is served live, and stored unless it is a 206; on rejection the cached page is served if any, else the offline document |
| `ServiceWorker.HandleFetch` | sw.js:52-77 | passthrough iff the method is not GET or the origin differs, and then nothing changes; navigations go network-first, the rest cache-first; only the current cache is ever written |
| `WorkerLifecycle.Step` | sw.js:32-77 | no event makes two caches share a name |
| `WorkerLifecycle.Run` | sw.js:32-77 | no sequence of events makes two caches share a name |
| `WorkerLifecycle.LookupHitMatches` | sw.js:74 | an entry in any named cache makes `caches.match` succeed |
| `WorkerLifecycle.InstallReadiesFallback` | sw.js:32-38 | a successful install leaves the offline document in the current cache |
| `WorkerLifecycle.StepKeepsFallback` | sw.js:32-90 | no install, activate or fetch event removes the offline document from the current cache |
| `WorkerLifecycle.RunKeepsFallback` | sw.js:32-90 | once cached, the offline document survives every later sequence of events |
| `WorkerLifecycle.OfflineAlwaysAnswered` | sw.js:74-88 | with the offline document cached, an intercepted request whose fetch rejects is answered with a response and changes nothing |
| `WorkerLifecycle.InstalledWorkerAnswersOffline` | sw.js:32-90 | after a successful install and any events, an offline request is still answered |
| `WorkerLifecycle.CacheHitIgnoresNetwork` | sw.js:66-67 | an asset hit gets the same answer and state whatever the network would do, so no fetch happens |
| `WorkerLifecycle.ActivateKeepsOnlyCurrent` | sw.js:45-46 | with unique names, activation leaves exactly the current cache with its old contents, or nothing |
| `WorkerLifecycle.NoStaleKeys` | sw.js:46 | a key list holding only the current name has nothing to delete |
| `WorkerLifecycle.ActivateIdempotent` | sw.js:42-50 | activating twice is activating once |
| `WorkerLifecycle.FetchKeepsActivated` | sw.js:71 | after activation, fetch handling never brings back another cache name |
| `WorkerLifecycle.ActivatedMatchReadsCurrent` | sw.js:66 | after activation, `caches.match` reads only the current cache |
| `WorkerLifecycle.VisitedPageServedOffline` | sw.js:79-89 | after activation, a request served online with a response other than 206 gets the same answer when the network later fails; such a visited page never falls back to the root document (a 206 is not stored, so it does) |
| `WorkerLifecycle.ActivateScenario` | sw.js:42-50 | with a stale and the current version present, activation keeps only the current one |
| `WorkerLifecycle.StaleVersionAnswersUntilActivated` | sw.js:42-67 | an asset held by an older version created first is answered from that version until activation, and from the current version after it |
| `WorkerLifecycle.PrecacheScenario` | sw.js:32-38 | precaching two URLs that both answer 200 into empty storage resolves and stores exactly those two responses under the new name |
| `WorkerLifecycle.OfflineNavigationScenario` | sw.js:79-90 | an offline navigation to a page stored earlier is answered with that page, not the root document, and writes nothing |
| `ThemeSwitch.Opposite` | assets/js/main.js:104 | the toggled theme always differs from the current one |
| `ThemeSwitch.GetStoredTheme` | assets/js/main.js:53-60 | a preference is returned exactly for the stored strings "dark" and "light"; anything else, or a storage exception, gives none |
| `ThemeSwitch.StoredThemeRoundTrip` | assets/js/main.js:53-68 | a theme written under its name reads back as the same theme |
| `ThemeSwitch.SystemTheme` | assets/js/main.js:72 | the system theme is dark exactly when the colour-scheme query exists and matches |
| `ThemeSwitch.Effective` | assets/js/main.js:73 | the effective theme is the stored preference when there is one, else the system theme |
| `ThemeSwitch.Load` | assets/js/main.js:70-82 | at start-up the stored preference is read and the effective theme is applied |
| `ThemeSwitch.Toggle` | assets/js/main.js:102-108 | the preference becomes the opposite of the effective theme, which is then applied; the written string reads back as that preference |
| `ThemeSwitch.ToggleTwiceRestores` | assets/js/main.js:102-107 | two toggles restore the original effective theme |
| `ThemeSwitch.ToggleSurvivesReload` | assets/js/main.js:53-82 | after a toggle, a reload shows the toggled theme whatever the system scheme then is |
| `ThemeSwitch.SystemChange` | assets/js/main.js:138-143 | a system scheme change changes nothing visible once a preference is stored; otherwise the new system theme is applied; the document stays in sync |
| `RoomFilter.CountShown` | assets/js/main.js:280-290 | the count never exceeds the number of cards |
| `RoomFilter.CountZeroIff` | assets/js/main.js:289-292 | the count is zero iff no card passes the filter |
| `RoomFilter.AllShowsEverything` | assets/js/main.js:285-288 | with both selectors on "all" every card passes and the count is the number of cards |
| `RoomFilter.ApplyRoomFilter` | assets/js/main.js:276-293 | with no cards nothing changes; otherwise a card is shown iff both selectors match it, the count is the number shown, and the empty state (if present) is displayed iff nothing is shown |
| `Booking.Missing` | assets/js/main.js:338-339 | a field is reported missing iff it is required and not filled in |
| `Booking.Validate` | assets/js/main.js:335-368 | the honeypot aborts first; then a missing field is reported; then a check-in before today; then a check-out not after check-in; a form passing all four is submitted |
| `Booking.SubmitIffValidStay` | assets/js/main.js:354-370 | with parseable dates, a form is submitted iff it is complete, check-in is today or later and check-out is after check-in |
| `Booking.MissingReportedBeforeDates` | assets/js/main.js:338-352 | a missing required field gives the fill-in error whatever the dates and today are |
| `Booking.InvalidCheckinIsSubmitted` | assets/js/main.js:341-368 | a complete form whose check-in does not parse passes both date checks |
| `Booking.InvalidCheckinExample` | assets/js/main.js:341-368 | a concrete such form is submitted |
| `Booking.NoticeFor` | assets/js/main.js:330-373 | the message has the error style iff the verdict is a rejection, and is empty iff the honeypot aborted; each outcome has its own text: the fill-in request exactly for a missing field, the past-date text exactly for a past check-in, the order text exactly for a check-out not after check-in, and "sending" exactly for a submission |
| `Booking.MissingFieldShowsFillIn` | assets/js/main.js:336-351 | a form missing a required field (honeypot empty) shows the fill-in error in the error style, whatever the dates |
| `PageChrome.BodyLocked` | assets/js/main.js:158-162 | the body is locked iff the menu or the lightbox exists and is open |
| `PageChrome.ActiveLinks` | assets/js/main.js:164-168 | a link is active iff its `data-nav` equals the page's `data-page`; with no `data-page` none is |
| `PageChrome.AtMostOneActive` | assets/js/main.js:164-168 | among distinct links at most one is active |
| `PageChrome.HeaderScrolled` | assets/js/main.js:170-173 | without a header nothing happens; otherwise the header is marked scrolled iff `scrollY > 8` |
| `PageChrome.ScrolledMonotone` | assets/js/main.js:170-173 | scrolling further down never clears the scrolled flag, and the top of the page is never marked scrolled |
| `PageChrome.OnClick` | assets/js/main.js:179-199 | the toggle flips the menu; a link or an outside click closes it; a click inside the list but off a link changes nothing; `aria-expanded` and the body lock stay consistent |
| `PageChrome.ToggleTwiceRestores` | assets/js/main.js:180-184 | two clicks on the toggle restore a consistent menu |

## Left out

- `self.skipWaiting()`, `self.clients.claim()`, `event.waitUntil` and `event.respondWith`: host scheduling with no effect on the caches.
- Concurrency: each handler runs to completion in one step. The un-awaited `cache.put` calls are treated as finished within that step, not as racing writes.
- Request matching uses the URL only. Vary headers, other request headers and response cloning are not modelled.
- Platform failures of the cache store itself, such as `caches.open` rejecting or quota errors, are not modelled.
- `fetchPartial` and `inject` (partial header/footer loading) are network I/O and DOM mutation.
- Service-worker registration is browser plumbing.
- The scroll-reveal observer, the lightbox's construction and wiring, and `mountThemeToggle` are UI. The lightbox's open state is an input to the lock.
- `updateThemeToggle`'s icon, ARIA and title texts are UI output.
- The booking POST, its success and failure messages, the form reset and `updateSummary` are network and DOM output.
- Date parsing, time zones and `toISOString` become a parameter mapping text to a day number. The UTC versus local midnight question is not modelled.
- `localStorage` access, `matchMedia` and the listener-registration fallbacks become inputs: a storage read result and an optional query answer.
