# PlayDeck study session, modelled in Dafny

This project models the study-session screen of the flashcard desktop
application (`src/pages/PlayDeck.tsx`). The screen loads one deck from the
backend. It then shows one card at a time: a click on the card reveals its
back, the next click advances to the next card's front, and a click on the
back of the last card ends the session by navigating home. The user can also
restart from the first card or jump to every tenth card.

The model lives in one module, `PlayDeck` (`play_deck.dfy`):

- `State` is the screen's React state (`title`, `cards`, `loading`,
  `currentIndex`, `isFlipped`). The pure functions `CompleteLoad`, `Click`,
  `Restart` and `GoToCard` are the transitions on it. `PhaseOf` is the
  render function's early returns (loading view, empty-deck view, card view).
- `Consistent` is the invariant of every reachable state. Above all,
  `currentIndex` is a valid index whenever there are cards, so the unguarded
  read `cards[currentIndex]` (`CurrentCard`) is in bounds.
- The class `StudySession` holds the same state as fields. Its handler
  methods update them in place and are proved against the pure transitions.
- `GetJumpButtons` is the source's `while` loop, proved equal to
  `JumpTargets`, the multiples of 10 from 10 up to the number of cards.
- Navigating home is the outcome `NavigateHome` of a click. Whether the
  failure toast is raised is the boolean result of `FinishLoading`. The
  backend's answer is a parameter of type `FetchResult`.

Two points about `src/pages/PlayDeck.tsx` shape the model:

- `handleGoToCard` (lines 74-77) performs no bounds check.
  `HandleGoToCard` accepts any index and keeps the invariant exactly when
  the index is valid. The only caller, `PressJumpButton`, takes its target
  from `JumpTargets`, which makes the index valid.
- On a failed load (lines 46-49) only `loading` changes: `cards` and `title`
  keep the values they had. From the mounted state this is the empty deck.

## Model

| member | source | states |
|---|---|---|
| `PlayDeck.PhaseOf` | src/pages/PlayDeck.tsx:89-108 | the loading view is rendered exactly while loading, the empty-deck view exactly when loading is over with no cards, and the card view otherwise; the card view shows `currentIndex` with the back exactly when `isFlipped`, and in a consistent state that index is a valid card index |
| `PlayDeck.CurrentCard` | src/pages/PlayDeck.tsx:108 | in a consistent state with the card view shown, `cards[currentIndex]` is in bounds and is one of the deck's cards |
| `PlayDeck.NormalizeCards` | src/pages/PlayDeck.tsx:40-45 | the stored cards have the fetched list's length and order; each has the fetched front and back and the text form of the fetched id |
| `PlayDeck.CompleteLoad` | src/pages/PlayDeck.tsx:39-49 | after the backend call settles, loading is false and index and face are untouched; on success the title is the fetched one and each card has the fetched id (as text), front and back at the same position; on failure cards and title are unchanged |
| `PlayDeck.LoadFromMount` | src/pages/PlayDeck.tsx:26-49 | from the mounted state the load yields a consistent state showing the first card's front when the deck has cards, and the empty-deck view when it has none or the call failed |
| `PlayDeck.Click` | src/pages/PlayDeck.tsx:56-67 | a click never changes the deck; it navigates home exactly when the back of the last card is shown; on a front it flips without moving; on a back that is not the last it advances by one to the front |
| `PlayDeck.Restart` | src/pages/PlayDeck.tsx:69-72 | restart yields index 0 with the front shown, from any state, and keeps cards, title and loading |
| `PlayDeck.RestartIdempotent` | src/pages/PlayDeck.tsx:69-72 | restarting twice is the same as restarting once |
| `PlayDeck.GoToCard` | src/pages/PlayDeck.tsx:74-77 | a jump sets the index to its argument with the front shown and keeps the deck |
| `PlayDeck.HandlersKeepConsistent` | src/pages/PlayDeck.tsx:56-77 | click and restart keep the invariant and keep the card view on screen; a jump keeps the invariant if and only if its index is valid |
| `PlayDeck.ClickCycle` | src/pages/PlayDeck.tsx:56-67 | a front click reveals the back of the same card, a back click on a card that is not the last shows the next card's front, and the session ends exactly when `isLastCardBack` holds |
| `PlayDeck.ClicksVisitInOrder` | src/pages/PlayDeck.tsx:56-67 | starting from a front, the k-th click in a row shows card `index + k/2`, back when k is odd; no card is skipped |
| `PlayDeck.SessionEndsAfterTwoClicksPerCard` | src/pages/PlayDeck.tsx:56-67 | starting from a front, two clicks per remaining card end the session, and every shorter run of clicks stays on the screen |
| `PlayDeck.JumpTargets` | src/pages/PlayDeck.tsx:79-87 | the jump targets are strictly increasing, number `count / 10`, and are exactly the multiples of 10 between 10 and the card count |
| `PlayDeck.GetJumpButtons` | src/pages/PlayDeck.tsx:79-87 | the button loop returns exactly `JumpTargets` of the number of cards |
| `PlayDeck.JumpButtonIndexValid` | src/pages/PlayDeck.tsx:157-160 | the index a jump button passes on, its target minus one, is a valid card index |
| `PlayDeck.TwentyFiveCards` | src/pages/PlayDeck.tsx:154-160 | a 25-card deck offers the jumps 10 and 20, and the jump to 20 shows the front of the card at index 19 |
| `PlayDeck.IsLastCard` | src/pages/PlayDeck.tsx:110 | holds only when the index is the last one; in a consistent state with cards, it holds exactly when the shown card is the only one left from the current position on |
| `PlayDeck.IsLastCardBack` | src/pages/PlayDeck.tsx:111 | holds exactly when the index is the last one and the back is shown; in a reachable state, exactly when the next click ends the session |
| `PlayDeck.InstructionText` | src/pages/PlayDeck.tsx:114-119 | the caption is the flip caption exactly when the front is shown, the finish caption exactly when `isLastCardBack` holds, and the next-card caption exactly when a back that is not the last is shown |
| `PlayDeck.CaptionPredictsClick` | src/pages/PlayDeck.tsx:110-119 | in a reachable state the caption tells what the next click does: flip, advance by one, or end the session |
| `PlayDeck.Progress` | src/pages/PlayDeck.tsx:109 | the progress percentage times the card count is `(currentIndex + 1) * 100` |
| `PlayDeck.ProgressBounds` | src/pages/PlayDeck.tsx:109-110 | progress does not decrease as the index grows, is `100 / N` on the first card, and is 100 exactly on the last card |
| `PlayDeck.StudySession.constructor` | src/pages/PlayDeck.tsx:26-30 | the mounted screen is loading, with no cards, index 0 and the front shown |
| `PlayDeck.StudySession.FinishLoading` | src/pages/PlayDeck.tsx:39-49 | the fields become `CompleteLoad` of the old state, the invariant holds, and the failure toast is raised exactly when the call failed |
| `PlayDeck.StudySession.HandleCardClick` | src/pages/PlayDeck.tsx:56-67 | the fields become the state `Click` yields, or stay as they were when the click navigates home; the invariant and the card view are kept |
| `PlayDeck.StudySession.HandleRestart` | src/pages/PlayDeck.tsx:69-72 | the fields become `Restart` of the old state; the invariant is kept |
| `PlayDeck.StudySession.HandleGoToCard` | src/pages/PlayDeck.tsx:74-77 | the fields become `GoToCard` of the old state; the invariant holds afterwards exactly when the index is valid |
| `PlayDeck.StudySession.PressJumpButton` | src/pages/PlayDeck.tsx:157-160 | pressing the button for a generated target shows the front of the card at index target minus one and keeps the invariant |

## Left out

- `src/App.tsx`: the route table only wires pages to paths.
- The backend call `invoke("get_deck_cards", …)` and the async `useEffect`
  lifecycle: the call's answer is the parameter `FetchResult` of the load
  completion. The model assumes the completion happens once, while the screen
  is still loading after mount. A re-run of the effect on a change of
  `deckId` is not modelled; it would neither reset `currentIndex` nor set
  `loading` back to true.
- `NormalizeCards`: the JavaScript `String(c.id)` conversion is the
  parameter `idText`; its textual result is not modelled.
- `Number(id)` parsing of the route parameter: ids are opaque.
- The toast message text and the `Toaster` element: only whether the
  failure toast is raised (`toast.error`, line 47) is modelled. Whether it is
  displayed depends on a `Toaster`, and this screen mounts its only one
  inside the card view (line 123). After a failed load the screen shows the
  empty-deck view, which has no `Toaster`.
- The exit buttons that only call `navigate("/")` (empty-deck view and
  header): plain navigation with no state change.
- JSX, CSS classes and styling, including the face label and the highlight
  driven by `isLastCardBack`.
- `Progress`: JavaScript floating-point division is modelled as exact real
  division, so rounding is not modelled.
- `categoryName` is carried in `DeckDetail` but nothing on this screen reads it.
