# FlyBee website: drawer accordion, key buffer and typing effect in Dafny

This project models the stateful logic of the FlyBee marketing site's front-end
script (`script.js`). Three modules stand in for the DOM, with explicit state:

- `Drawers` (drawers.dfy) covers the services section's PDF drawers. The
  `DrawerController` class holds the page's drawers, the resource map (`PDF_FILES`),
  the open flag of each drawer, the `loadedDrawers` set and what each drawer's
  content region shows (`Content`: `Empty`, `NotConfigured`, `Loading`,
  `Viewer(url)`, `NotFound(url)`). It also records the existence probes that were
  issued and the ones still pending. `Toggle` is `toggleDrawer`. The PDF loader
  `loadPDF` has two parts: `LoadPdf`, the synchronous part that renders a
  placeholder and issues the probe, and `ResolveProbe`, the probe's continuation.
  The probe's result is a boolean input. `DownloadPdf` is the download control.
  The class invariant `Valid()` states that at most one drawer is open. It also
  states that the load bookkeeping is consistent (`LoadsConsistent`): a drawer shows
  something exactly when it is in the loaded set, the loading placeholder is up
  exactly while its probe is pending, and every configured drawer that was loaded
  was probed exactly once.
- `Konami` (konami.dfy) covers the easter-egg key listener. `KonamiListener.KeyDown`
  pushes a key and trims the buffer to the last ten keys. It then compares the
  comma-joined buffer with the comma-joined code. A ghost history of all keys
  pressed lets the contract say that the buffer is the last min(10, n) keys. When
  no key in the current ten-key window contains a comma, the page activates
  exactly when the last ten keys are the code.
- `Typing` (typing.dfy) covers the motto's typing effect. Each call of `Type` is one
  timer callback. The invariant is that the element shows the typed prefix of the
  text.

The resource map is a constructor parameter of `DrawerController`, so that the
not-configured path can be exercised. `Drawers.PdfFiles` is the map the page
actually uses.

## Model

| member | source | states |
|---|---|---|
| Drawers.AfterToggle | script.js:29-53 | after a toggle every drawer other than the target is closed, the target is open exactly when it was closed before, and at most one drawer is open whatever the state before |
| Drawers.ClosingOpenDrawerClosesAll | script.js:45-49 | toggling the open drawer leaves every drawer closed |
| Drawers.ToggleTwiceRestores | script.js:29-53 | if only the target could be open, toggling it twice restores the open flags |
| Drawers.PdfUrl | script.js:75-77 | a service is not configured exactly when the resource map has no entry for it or its path is empty; otherwise its URL is the map's entry |
| Drawers.ProbeOutcome | script.js:96-131 | a settled probe renders exactly one outcome: the viewer for the PDF's URL when the response is ok, otherwise the not-found message naming that URL |
| Drawers.DownloadName | script.js:138 | the download name is the service id followed by "-presentation.pdf" |
| Drawers.DownloadNamesDistinct | script.js:138 | two services share a download name only if they are the same service |
| Drawers.DownloadPdf | script.js:135-144 | the download link's href is the PDF URL, its name is the service's download name, and it targets a new browsing context |
| Drawers.StartLoadKeepsConsistent | script.js:56-96 | loading a drawer that was never loaded keeps the bookkeeping consistent, and the drawer had no probe before |
| Drawers.ResolveKeepsConsistent | script.js:97-131 | settling a pending probe keeps the bookkeeping consistent, and a pending drawer is always a configured one |
| Drawers.DrawerController.constructor | script.js:9 | the loaded set starts empty and no probe is issued; every drawer starts closed and empty, which is the page's initial markup |
| Drawers.DrawerController.LoadPdf | script.js:70-96 | an unconfigured service (missing entry or empty path) gets the not-configured placeholder and no probe; a configured one gets the loading placeholder and exactly one new probe |
| Drawers.DrawerController.CloseOthers | script.js:31-36 | every drawer other than the target is closed; the target's flag is untouched |
| Drawers.DrawerController.Toggle | script.js:24-67 | the open flags become AfterToggle of the old ones; the invariant is kept; the loaded set only grows, by the target and only on the opening path; a load (and with it a probe) happens only on the opening path of a drawer not loaded before, so reopening never reloads |
| Drawers.DrawerController.StartLoad | script.js:57-60 | the guarded load of a drawer not yet loaded runs the content load and then adds the id to the loaded set, keeping the bookkeeping consistent |
| Drawers.DrawerController.ResolveProbe | script.js:97-131 | the pending probe settles into the viewer or the not-found message for the drawer's URL, whether or not the drawer is still open; nothing else changes |
| Drawers.ReopeningIssuesOneProbe | script.js:56-60 | opening, closing and reopening a configured drawer issues one probe, and after it succeeds the drawer shows the viewer for its PDF |
| Drawers.UnconfiguredDrawerIssuesNoProbe | script.js:75-87 | opening an unconfigured drawer shows the not-configured message and issues no probe; opening another drawer afterwards closes it, and a failed probe names the PDF |
| Konami.SliceLast | script.js:255 | slicing from -n yields the last min(n, length) elements in order |
| Konami.WindowSlides | script.js:254-255 | push-then-trim of the window of a history equals the window of the extended history |
| Konami.Join | script.js:257 | joining no keys gives the empty string and one key gives that key; for comma-free keys the joined string holds exactly one comma per pair of neighbours |
| Konami.JoinHead | script.js:257 | a comma-joined list starts with its first key, followed by a comma and the rest when there is more than one key |
| Konami.JoinInjective | script.js:257 | two non-empty lists of comma-free keys join to the same string exactly when they are equal |
| Konami.SequenceHasNoCommas | script.js:251 | no key of the code contains a comma |
| Konami.ActivationIsSequenceMatch | script.js:251-259 | for a non-empty comma-free window, the joined comparison holds exactly when the window equals the code |
| Konami.KonamiListener.constructor | script.js:250 | the buffer starts empty |
| Konami.KonamiListener.KeyDown | script.js:253-260 | after each key the buffer holds the last min(10, n) keys pressed, in order; it fires exactly when the joined buffer equals the joined code, which, when no key in the window contains a comma, means exactly when the last ten keys are the code |
| Typing.TypingEffect.constructor | script.js:223-224 | typing starts from an empty element at index 0, for a text whose characters are each one UTF-16 code unit |
| Typing.TypingEffect.Type | script.js:226-232 | while characters remain, one callback appends the next character and advances the index; otherwise nothing changes; the index never exceeds the text length and the element always shows the typed prefix |
| Typing.TypingEffect.TypeAll | script.js:226-234 | the chain of callbacks ends with the whole text shown |
| Typing.TypeMotto | script.js:217-234 | typing out the motto ends with the motto shown |

## Left out

- Particle background (script.js:147-165): random positions and float style values, purely decorative.
- Navbar scroll class, glitch animation and anchor smooth-scrolling (script.js:168-194, 238-247): styling driven by the scroll offset.
- Mobile menu class toggling (script.js:197-214): toggles two classes, with no state beyond that.
- Matrix-mode colour swap, load-time logging and console status messages (script.js:262-295): `KeyDown` returns whether the swap fires; the swap itself is cosmetic.
- The real HEAD request, `setTimeout` delays, `scrollIntoView`, `window.open` and the synthetic link click are browser and network I/O. A probe's result is an argument of `ResolveProbe`, the timer chain is a sequence of `Type` calls, and the download is the link it would click.
- Button `active` classes (script.js:38-53): they follow the clicked element (`event.target`), not the drawer id.
- The HTML of the placeholders is represented only by the `Content` tags.
- Drawers.DrawerController.Toggle requires the id to name a drawer of the page. Without one, the page throws on the null element before changing anything.
- Drawers.DrawerController.Toggle assumes every toggle is a click inside a `.service-btn` button. Outside an event the page throws at script.js:28 before any change. If the click has no enclosing button, the page opens the drawer at line 52 and then throws at line 53. The drawer is then left open with nothing loaded and its id not in the loaded set. The model always completes the opening path.
- Drawers.DrawerController.constructor assumes the page's markup starts with every drawer closed and every content region showing nothing loaded. script.js does not set these; only the empty loaded set comes from it.
- Drawers.PdfUrl looks up only the map's own entries. The page's object lookup would also find inherited properties for ids like "toString". The model assumes no drawer id names an inherited Object property.
- Konami.KonamiListener.KeyDown states the activation as key-list equality only when no key in the current window contains a comma. The comma key itself is such a key. For a window that holds one, it states only the joined comparison the page makes.
- Typing.TypingEffect.constructor accepts only texts within the Basic Multilingual Plane. The page counts and indexes in UTF-16 code units, so a character outside that plane takes it two callbacks, half a surrogate pair each. The model does not capture this. The motto is plain ASCII.
- The typing effect's early return when the motto element is missing (script.js:221) is not modelled. That path does nothing.
- No staleness guard is added to `ResolveProbe`. The page has none: a probe that settles after its drawer was closed still renders into it. The loaded set marks a load as attempted, not as succeeded, so a failed probe is never retried on reopening. The model keeps this behaviour.
