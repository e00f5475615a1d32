# Swipe deck of the `Advanced` component

This project models the swipe-deck state machine of the React component `Advanced`
(`src/examples/Advanced.js`). The component shows a stack of project listings as
draggable cards. The deck is consumed from its last index down to 0. Pass and Like
ask the top card to fly out, and a card's own swipe callback moves the index.
Undo restores the card above the top one. A right swipe on a listing with a slug
opens that project's page. A "View Details" request fills a modal.

Three modules:

- `Wrappers`: the `Option` type.
- `DeckState`: the state machine on values. It holds the component state (`State`),
  the events (`Event`), one function per handler (`Load`, `FetchDetail`, `Swiped`,
  `Swipe`, `GoBack`, `OutOfFrame`, `CloseModal`), and `Step`/`Run` over a sequence of
  events. The lemmas about whole runs are here.
- `Advanced`: the class `Deck`, whose fields are the component's state values
  (`db`, `currentIndex`, `lastDirection`, `showModal`, and `selectedProject` as `selected`), the mirror
  `currentIndexRef.current` (`indexRef`) and the number of card handles (`refs`,
  i.e. `childRefs.length`). Each method is one handler. Each method's postcondition
  ties the new fields (`Snapshot()`) and the returned command to the `DeckState`
  function. `swipe` and `outOfFrame` change no state and return their command.

Side effects on the card library and the browser come back as a returned `Command`:
`SwipeCard(i, dir)` for `childRefs[i].current.swipe(dir)`, `RestoreCard(i)` for
`childRefs[i].current.restoreCard()`, and `Navigate(url)` for `window.open(url, '_blank')`.
The two network responses are inputs of the completion handlers (`ListingsResponse`,
`DetailResponse`). A failed response changes nothing, because the source only logs it.

Points where the model follows the code closely:

- The load sets `currentIndex` but not the mirror (`Advanced.js:20-21`). Only
  `updateCurrentIndex` writes both. So right after the load, `indexRef` still holds
  its mount value 0 (`MirrorStaleAfterLoad`).
- `outOfFrame` reads `currentIndexRef.current`, not `currentIndex` (`Advanced.js:73`).
  So whether a card is restored depends on the mirror.
- Before the listings arrive, `currentIndex` is 0 and the deck is empty. So
  `-1 <= currentIndex <= n - 1` does not hold yet. The invariant `Inv` therefore
  admits that pre-load state as a second case.
- `selectedProject` can be `null` (initially), `undefined` (a response without
  `pageProps.bounty`) or a record. The modal's `isOpen` tests `!== null`, so an
  `undefined` selection also opens it. The model keeps these three cases apart (`Slot`).
- `swipe` requires both `currentIndex >= 0` and `currentIndex < db.length`. `goBack`
  checks only `canGoBack` and then issues the restore for `currentIndex + 1`.

## Model

| member | source | states |
|---|---|---|
| `DeckState.Initial` | src/examples/Advanced.js:8-13 | the mount state keeps the invariant, has the mirror equal to the index, and has the modal closed; `canGoBack` is false, while `canSwipe` holds even though index 0 is not a card of the empty deck |
| `DeckState.CanGoBack` | src/examples/Advanced.js:55 | `currentIndex < n - 1`: when it holds and `currentIndex >= -1`, card `currentIndex + 1` exists; when it fails, there is no card above the top one |
| `DeckState.CanSwipe` | src/examples/Advanced.js:56 | `currentIndex >= 0`: when it holds and `currentIndex < n`, card `currentIndex` exists; when it fails, there is no such card |
| `DeckState.IsOpen` | src/examples/Advanced.js:144 | the modal is open iff it is shown and the selection is not `null`; an `undefined` selection passes |
| `DeckState.NavigationUrl` | src/examples/Advanced.js:66 | the URL is the fixed project prefix followed by exactly the slug |
| `DeckState.UpdateCurrentIndex` | src/examples/Advanced.js:50-53 | the index and the mirror both become `val`; nothing else changes |
| `DeckState.Load` | src/examples/Advanced.js:15-28 | on success the deck becomes the data, there is one handle per card, `currentIndex` becomes `n - 1`, and the mirror and all other fields are unchanged; a failure changes nothing; the invariant is kept |
| `DeckState.FetchDetail` | src/examples/Advanced.js:30-40 | on success the selection becomes the response's bounty and the modal flag is set, so the modal is open iff the bounty is not `null`; a failure changes nothing |
| `DeckState.CloseModal` | src/examples/Advanced.js:144-145 | afterwards the modal is not open, the selection is unchanged, and only `showModal` changed |
| `DeckState.Swiped` | src/examples/Advanced.js:58-69 | `lastDirection` becomes `dir`, index and mirror become `index - 1`, the deck is unchanged; a navigation is issued iff the direction is right, `db[index]` exists and its slug is truthy, and then it goes to the project URL of that slug; an in-range index keeps the invariant |
| `DeckState.Swipe` | src/examples/Advanced.js:76-80 | no state changes; a swipe command is issued iff `0 <= currentIndex < n`, it targets card `currentIndex` in direction `dir`, and that card exists |
| `DeckState.GoBack` | src/examples/Advanced.js:82-87 | if `canGoBack` is false, nothing changes and no command is issued; otherwise index and mirror become `old + 1` and exactly one restore, for card `old + 1`, is issued; that card exists whenever `currentIndex >= -1`; the invariant is kept |
| `DeckState.OutOfFrame` | src/examples/Advanced.js:71-74 | no state changes; a restore is issued iff the mirror is `>= idx`, and it targets card `idx` |
| `DeckState.StepKeepsInv` | src/examples/Advanced.js:42-87 | every handler, given a card index of the deck, keeps the invariant, and any command it issues addresses an existing handle |
| `DeckState.AdmissibleRunIsSafe` | src/examples/Advanced.js:42-87 | from any state satisfying the invariant, every run of well-formed events keeps the invariant, and every command it issues addresses an existing handle |
| `DeckState.ReachableStatesAreSafe` | src/examples/Advanced.js:8-13 | from mount on, every reachable state has `currentIndex >= -1` and one handle per card, and no command addresses a missing card |
| `DeckState.DeckFixedWithoutLoad` | src/examples/Advanced.js:20 | the deck and its handles change only when the listings arrive |
| `DeckState.SyncedWithoutLoad` | src/examples/Advanced.js:50-53 | the mirror can only diverge from `currentIndex` when the listings arrive; every other handler keeps them equal |
| `DeckState.NavigationUrlInjective` | src/examples/Advanced.js:66 | distinct slugs open distinct project URLs |
| `DeckState.UndoAfterSwipe` | src/examples/Advanced.js:58-60 | Undo right after swiping the top card restores the index and the mirror and issues a restore for that same card |
| `DeckState.NothingHappensBeforeLoad` | src/examples/Advanced.js:8-9 | in the mount state, Pass/Like issue no command and Undo is a no-op |
| `DeckState.MirrorStaleAfterLoad` | src/examples/Advanced.js:20-21 | after loading three cards, the index is 2 but the mirror is still 0, so card 2 leaving the screen triggers no restore |
| `DeckState.ThreeCardScenario` | src/examples/Advanced.js:58-87 | for deck [A, B, C]: load, left swipe of C, right swipe of B, Undo give indices 2, 1, 0, 1; only B's swipe navigates, to B's URL; Undo restores card 1 |
| `Advanced.Deck.constructor` | src/examples/Advanced.js:8-13 | the mount state: empty deck, index and mirror 0, no direction, modal closed, selection `null`; the invariant holds |
| `Advanced.Deck.CanGoBack` | src/examples/Advanced.js:55 | true iff `currentIndex < db.length - 1` |
| `Advanced.Deck.CanSwipe` | src/examples/Advanced.js:56 | true iff `currentIndex >= 0` |
| `Advanced.Deck.IsOpen` | src/examples/Advanced.js:144 | true iff `showModal` and the selection is not `null` |
| `Advanced.Deck.FetchListingsDone` | src/examples/Advanced.js:17-24 | the fields change as `DeckState.Load` says: the deck and the index are set, the mirror is untouched |
| `Advanced.Deck.FetchProjectDetailDone` | src/examples/Advanced.js:31-39 | the fields change as `DeckState.FetchDetail` says; on success the modal is open iff the bounty is not `null` |
| `Advanced.Deck.UpdateCurrentIndex` | src/examples/Advanced.js:50-53 | both `currentIndex` and the mirror become `val`, nothing else changes |
| `Advanced.Deck.Swiped` | src/examples/Advanced.js:58-69 | the fields and the returned navigation are those of `DeckState.Swiped`; index and mirror are `index - 1`, the deck is unchanged |
| `Advanced.Deck.OutOfFrame` | src/examples/Advanced.js:71-74 | returns a restore for card `idx` iff the mirror is `>= idx`, else nothing; changes nothing; for a valid deck and a card index, the restore addresses an existing handle |
| `Advanced.Deck.Swipe` | src/examples/Advanced.js:76-80 | returns a swipe of card `currentIndex` iff `0 <= currentIndex < n`, else nothing; changes nothing |
| `Advanced.Deck.GoBack` | src/examples/Advanced.js:82-87 | the fields and the returned restore are those of `DeckState.GoBack`; the restored card exists when the old index was `>= -1`, and its handle exists whenever the deck was valid |
| `Advanced.Deck.CloseModal` | src/examples/Advanced.js:168 | the modal is closed and the selection is kept |
| `Advanced.FormatDate` | src/examples/Advanced.js:89-92 | a missing or empty date gives `''`; any other date is passed to the locale formatter |

## Left out

- The two `fetch` calls and JSON decoding (`Advanced.js:18-19, 33-34`) are network I/O. The handlers take the decoded result, or a failure, as an input. A listing response whose JSON is not an array is not modelled.
- `window.open` is a browser side effect. It is returned as `Navigate(url)`.
- How `react-tinder-card` carries out `swipe` and `restoreCard` (gestures, animation, the awaited promises) is not modelled. Its commands are returned as values. The library only promises to call the callbacks of the card that moved. The index those callbacks pass is bound by the component's own closures over the `db.map` index (`Advanced.js:97-103`). That is the precondition `WellFormed`: card callbacks carry an index of the deck.
- React's batched, asynchronous `useState` updates are not modelled. Each handler is one atomic transition over the current fields. `childRefs` is recomputed when the deck length changes; the load updates `refs` at once.
- The `nameToDelete` and `name` arguments of `swiped` and `outOfFrame` are left out. The source only logs them.
- `console.log` and `console.error` output is left out.
- `react-modal`, `Modal.setAppElement`, and all JSX and styling (`Advanced.js:94-252`) are UI. Only the modal's `isOpen` condition and its two close handlers are modelled.
- Listing and detail fields other than the slug (title, sponsor, deadline, compensation, skills, counts) are left out. They are only rendered.
- `Advanced.FormatDate`: the locale formatting `new Date(s).toLocaleDateString()` depends on the host. It is a parameter of the function.
