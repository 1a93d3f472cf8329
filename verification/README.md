# ShadowTalk board, modelled in Dafny

ShadowTalk is an anonymous support board. People post a *dilemma* tagged with
one emotion, join the *emotion room* of that emotion, reply to the dilemmas of
their room, and give *empathy tokens* to replies. A dilemma's `totalTokens` is
the sum of its replies' tokens. Two views are derived from the state:
- the dilemmas of the current room;
- the three of them with the most tokens ("trending").

All of this lives in the `App` component (`src/App.jsx`). This project models
its state and handlers:

- `text.dfy` (module `Text`) holds the two string operations the guards use.
  - JavaScript's `String.prototype.trim`, over the full ECMAScript
    WhiteSpace and LineTerminator set.
  - `length`, counted in UTF-16 code units.
- `records.dfy` (module `Records`) holds the rest of the data model and the
  pure per-dilemma updates.
  - Replies, dilemmas, `MAX_REPLY_LENGTH` and the `EMOTIONS` ids.
  - JavaScript truthiness of the optional room and emotion.
  - Appending a reply (the `map`/spread of `handleAddReply`).
  - Giving a token and recomputing the total (the `map`/`reduce` of
    `handleGiveToken`).
  - Finding the selected dilemma (`find`).
- `views.dfy` (module `Views`) holds the two `useMemo` views.
  - The room filter.
  - The stable sort by tokens (the comparator `(b.totalTokens || 0) -
    (a.totalTokens || 0)`, stable as section 22.1.3.27 of ECMAScript 2019
    requires), cut to three.
- `board.dfy` (module `Board`) holds the class `Board`.
  - Its fields are `dilemmas`, `room` (`userEmotionRoom`) and `selected`
    (`selectedId`).
  - It has one method per handler. Each method states every outcome and the
    whole new state.
  - Its invariant `Valid()` holds after every handler: every dilemma has
    non-blank text, an emotion, and replies of non-blank text within the
    limit, and its `totalTokens` equals the sum of its replies' tokens.
- `scenarios.dfy` (module `Scenarios`) drives the class through short
  sessions:
  - the first post joins a room;
  - a cross-room reply is refused;
  - the 200-unit limit;
  - three tokens for one reply;
  - the top three of `[5, 1, 9, 3]`;
  - joining and leaving a room, and joining one the interface never offers;
  - selecting an unknown id.

The values the browser provides become parameters:
- the anonymous id and the saved room are constructor arguments;
- the text and emotion drafts, the ids from `Date.now()` and the timestamps
  are method arguments.

Ids are never assumed unique. The handlers update every dilemma (and every
reply) whose id matches, as the source's `map` calls do. The selected
dilemma is the first match, as `find` returns.

## Checks the handlers do not make

The model does what the code does, including where one might expect more:

- **Select does not check the id.** One might expect selecting an unknown id
  to leave the selection unchanged. `handleSelectDilemma` sets it anyway.
  `Board.Board.SelectDilemma` does the same, and `Scenarios.SelectUnknown`
  shows that a reply then finds nothing selected.
- **Join does not validate the emotion.** One might expect a join to refuse
  an emotion outside `EMOTIONS`. `handleJoinEmotionRoom` accepts any id, as
  `Scenarios.JoinUnlistedRoom` shows. The emotion of a post likewise only
  has to be truthy. `Emotions` is therefore a constant that no guard
  consults.
- **A reply has no dilemma parameter.** `handleAddReply` replies to the
  current selection, and so does the model.
- **Only one refusal is reported.** In the code only the room mismatch is
  visible to the user (an `alert`), and the other refusals return silently.
  The model returns an `Outcome` naming the reason in every case, and the
  state is unchanged on every refusal.

## Model

| member | source | states |
|---|---|---|
| `Text.TrimFrom` | src/App.jsx:73 | the trimmed text starts at the first character at or after the given index that `trim` keeps; everything skipped is trimmable |
| `Text.TrimTo` | src/App.jsx:73 | the trimmed text ends after the last kept character before the given end; everything cut off is trimmable |
| `Text.TrimStrips` | src/App.jsx:73 | `Trim(s)` is a slice of `s` whose removed prefix and suffix are all whitespace, and which neither starts nor ends with whitespace |
| `Text.StripsToUnique` | src/App.jsx:106 | only one string can be obtained by stripping whitespace from both ends, so the characterisation of `trim` is exact |
| `Text.Trim` | src/App.jsx:73 | the trimmed text is no longer than the input and neither starts nor ends with whitespace; `TrimStrips` and `StripsToUnique` make it the unique such slice |
| `Text.TrimEmptyIffBlank` | src/App.jsx:73-74 | the trimmed text is empty exactly when every character is whitespace (both directions), which is when post and reply are ignored |
| `Text.TrimIdempotent` | src/App.jsx:77 | trimming the stored trimmed text again changes nothing |
| `Text.Utf16Length` | src/App.jsx:108 | the JavaScript length is between the number of characters and twice that |
| `Text.Utf16LengthOfBmp` | src/App.jsx:108 | for text within the Basic Multilingual Plane the length limit counts characters |
| `Records.SumTokens` | src/App.jsx:149-152 | the `reduce` total is at least each reply's tokens, and is zero exactly when no reply has a token; `SumTokensAppend` and `SumTokensAfterBump` relate it to the updates |
| `Records.BumpReplies` | src/App.jsx:146-148 | the token `map` keeps the replies and their order, changes only tokens, and adds exactly one token to exactly the replies with the id; `SumTokensAfterBump` gives its effect on the sum |
| `Records.SumTokensAppend` | src/App.jsx:149-152 | the `reduce` over replies with one more reply grows by that reply's tokens |
| `Records.SumTokensAfterBump` | src/App.jsx:146-152 | after the token `map`, the sum grows by the number of replies carrying the reply id |
| `Records.BumpAbsentReply` | src/App.jsx:146-148 | a reply id that no reply carries leaves the replies unchanged |
| `Records.GiveTokenIn` | src/App.jsx:144-158 | only replies and total change; each reply with the id gains one token and no other reply changes; the total is recomputed to the sum of the new replies; a consistent total grows by the number of matching replies |
| `Records.GiveTokenToUniqueReply` | src/App.jsx:146-152 | with exactly one reply carrying the id, that reply and the dilemma's total each gain exactly one token |
| `Records.GiveTokenAbsentReply` | src/App.jsx:145-158 | a token for a reply id the dilemma does not have leaves a consistent dilemma unchanged |
| `Records.AppendReply` | src/App.jsx:118-125 | the reply goes at the end, earlier replies and every other field stay, and the stored total stays equal to the reply sum although it is not recomputed |
| `Records.FindIndex` | src/App.jsx:55 | the result is the first position whose id matches, or none exactly when no dilemma has that id |
| `Records.SelectedDilemma` | src/App.jsx:54-57 | the selected dilemma is a dilemma of the board carrying the selected id; there is none only when nothing is selected or no dilemma has that id; `SelectedIsFirstMatch` makes it the first such dilemma |
| `Records.SelectedIsFirstMatch` | src/App.jsx:54-57 | when ids repeat, the selected dilemma is the first one carrying the selected id, whose emotion the reply's room check then uses |
| `Views.InRoom` | src/App.jsx:61 | a dilemma is kept exactly when it is on the board and has the room's emotion |
| `Views.RoomPositions` | src/App.jsx:61 | the reference list of positions of a room's dilemmas stays within the board |
| `Views.RoomPositionsSound` | src/App.jsx:61 | every listed position holds a dilemma of the room, and positions strictly ascend |
| `Views.RoomPositionsComplete` | src/App.jsx:61 | every position holding a dilemma of the room is listed |
| `Views.InRoomIsStableSelection` | src/App.jsx:61 | the filter returns exactly the dilemmas at the listed positions, in board order: nothing of the room is dropped and the order is kept |
| `Views.RoomView` | src/App.jsx:59-62 | with a falsy room (none or "") the view is the whole board; otherwise a dilemma is in the view exactly when it has the room's emotion |
| `Views.InsertIntoSorted` | src/App.jsx:65-67 | inserting into a list sorted by tokens keeps it sorted and adds exactly one dilemma |
| `Views.SortByTokens` | src/App.jsx:65-67 | the sorted copy has the same dilemmas (as a multiset) and is non-increasing by total tokens |
| `Views.InsertKeepsTies` | src/App.jsx:65-67 | an inserted dilemma goes ahead of every dilemma with the same total |
| `Views.SortIsStable` | src/App.jsx:65-67 | for every total, the dilemmas with that total keep their input order in the sorted copy |
| `Views.WithTokensOfPrefix` | src/App.jsx:68 | the dilemmas with a given total in a prefix come first among those of the whole list |
| `Views.PrefixOfSorted` | src/App.jsx:68 | a prefix of the sorted copy is sorted, is drawn from it, and holds the largest totals |
| `Views.TopKeepsTies` | src/App.jsx:64-69 | the ties that make it into the first n of the sorted view are the first ties of the view, in view order |
| `Views.Trending` | src/App.jsx:64-69 | trending has min(3, view size) entries, all drawn from the room view, non-increasing by tokens; no dilemma left out has more tokens than an entry, and ties appear in view order |
| `Board.Board.constructor` | src/App.jsx:46-52 | the board starts empty with nothing selected, in the saved room only when that is truthy |
| `Board.Board.PostDilemma` | src/App.jsx:71-92 | a blank text or a falsy emotion is refused and changes nothing; otherwise one dilemma with trimmed text, this author, no replies and no tokens is prepended, becomes the selection, and joins its room only when there was none; the invariant is kept |
| `Board.Board.SelectDilemma` | src/App.jsx:94-97 | any id becomes the selection, whether or not a dilemma has it |
| `Board.Board.AddReply` | src/App.jsx:99-128 | refusal, in this order: nothing selected, room differs from the selected dilemma's emotion, blank text, more than 200 code units; a refusal changes nothing; otherwise every dilemma with the selected id gets the new token-less reply at the end and all others stay; order, selection and room are untouched; the invariant is kept |
| `Board.Board.JoinRoom` | src/App.jsx:130-134 | the room becomes the given emotion (unchecked) and the selection is cleared; dilemmas are untouched |
| `Board.Board.LeaveRoom` | src/App.jsx:136-140 | no room and no selection; dilemmas are untouched |
| `Board.Board.GiveToken` | src/App.jsx:142-160 | each dilemma with the id becomes its token-given version and the others stay, in place; an unknown dilemma id changes nothing; the invariant, totals included, is kept |
| `Board.TrimmedNotBlank` | src/App.jsx:106-107 | a text that survives the emptiness test is not blank, so stored texts are never blank |
| `Board.PrependKeepsWellFormed` | src/App.jsx:84 | prepending a well-formed dilemma keeps every dilemma well-formed |
| `Board.AppendKeepsWellFormed` | src/App.jsx:117-126 | appending a valid reply with no tokens keeps a dilemma well-formed, its total included, although the total is not recomputed |
| `Scenarios.SortExample` | src/App.jsx:65-67 | totals 5, 1, 9, 3 sort to 9, 5, 3, 1 |
| `Scenarios.TrendingExample` | src/App.jsx:64-69 | with totals 5, 1, 9, 3 and no room, trending is the dilemmas with 9, 5, 3 in that order |
| `Scenarios.FirstPostJoinsRoom` | src/App.jsx:84-91 | a first post outside any room joins the posted emotion's room; a second post with another emotion leaves it |
| `Scenarios.ReplyOutsideRoom` | src/App.jsx:101-105 | replying to a "lonely" dilemma from the "angry" room is refused as a room mismatch and adds no reply |
| `Scenarios.ReplyLengthLimit` | src/App.jsx:106-108 | a non-blank reply of up to 200 code units is accepted and one longer is refused as too long |
| `Scenarios.SelectUnknown` | src/App.jsx:94-97 | selecting an unknown id still sets the selection, and a reply then finds nothing selected |
| `Scenarios.JoinThenLeave` | src/App.jsx:130-140 | after a join the view is exactly the room's dilemmas, in board order; after leaving it is the whole board |
| `Scenarios.JoinUnlistedRoom` | src/App.jsx:130-134 | joining an emotion id missing from `EMOTIONS` still makes it the room |
| `Scenarios.PostWithReply` | src/App.jsx:110-126 | a post then a reply in its room leaves one consistent dilemma with one token-less reply |
| `Scenarios.ThreeTokens` | src/App.jsx:142-160 | three tokens for one reply give it 3 tokens and its dilemma a total of 3 |
| `Scenarios.TokensOnSingleReply` | src/App.jsx:146-152 | three token updates of a dilemma's only, token-less reply leave the reply and the total at 3 |

## Left out

- Rendering is not modelled: JSX, CSS classes and the truncated text shown in
  lists (`src/App.jsx:175-493`) hold no state logic.
- `localStorage` is not modelled. The room saved by an earlier session is the
  constructor's `savedRoom` argument. Writing and removing it on post, join
  and leave is browser I/O.
- `generateAnonymousId` and `getRandomPrompt` are not modelled. They use
  `Math.random` and storage; the anonymous id is a constructor argument and
  the prompt is placeholder text.
- `Date.now()` and `toISOString()` are not modelled. The ids and the
  timestamp are method arguments, and nothing assumes they are distinct.
- `alert` on a room mismatch is a UI side effect. It appears as the
  `RoomMismatch` outcome.
- The panic hide (a `setTimeout`) and the shadow-mode toggle are timer and
  cosmetic state outside the board.
- The form drafts (`dilemmaText`, `selectedEmotion`, `replyText`) are not
  board state. They are method arguments, and their clearing after a post,
  a reply or a selection is not modelled.
- React's state scheduling is not modelled. Each handler is one atomic step,
  and `selectedDilemma` is read from the state before the step, as the
  memoised value the handler closes over is.
- `Views.Trending`'s `|| 0` fallbacks never apply, because totals are
  natural numbers in the model; an undefined or non-numeric total cannot
  arise.
- `Board.Board.Visible` and `Board.Board.TrendingNow` only apply the view
  functions to the current state; their properties are those of
  `Views.RoomView` and `Views.Trending`.
- Strings are sequences of Unicode scalar values, so a JavaScript string
  holding a lone surrogate cannot be represented; `Text.Utf16Length` counts
  well-formed text only.
- `Scenarios.FirstPostJoinsRoom`, `Scenarios.ReplyOutsideRoom`,
  `Scenarios.ReplyLengthLimit`, `Scenarios.SelectUnknown` and
  `Scenarios.ThreeTokens` take their texts as parameters that are only
  required to trim to something non-empty, rather than concrete strings.
