# Chat client reconciliation and chat store, in Dafny

This project models the client side of a real-time chat app. Two parts are
modelled.

1. **The message working set of a conversation screen** (`ChatDetailView`).
   - The working set is the list of messages the screen shows, held as
     `localMessages`.
   - Fetched pages are merged with local `temp-` placeholders: matched
     placeholders are dropped, the rest is sorted newest first, and tombstoned
     ids are filtered out.
   - A silent poll keeps the previous list object when nothing changed.
   - Pushed messages are reconciled on the fast path.
   - Runs of images from one sender are grouped into synthetic `grid-` rows.
   - Reactions are toggled under a two-emoji cap.
   - Server reaction updates, optimistic edits and deletes (which expand a
     grid to its images) are applied to the working set.
2. **The chat store** (`useChatStore`). It is a class whose methods assign
   exactly the fields the source's `set(...)` calls name. Those fields are:
   - `socket`, `isConnected`, `chats` and `messages[chatId]`;
   - `chatSettings` and `starredMessages`;
   - `blockedUsers`, `isSelectionMode`, `selectedMessageIds` and
     `deletedMessageIds` (the tombstones).

   The class also keeps an invariant: no duplicate selection or tombstone
   ids, and connected only while a socket is held.

Files:
- `wrappers.dfy`: `Option`.
- `seqs.dfy`: a generic filter and its laws.
- `messages.dfy`: the message record.
- `ordering.dfy`: the stable newest-first sort. Any newest-first list that keeps
  the order of equal timestamps equals it.
- `reconcile.dfy`: `mergeMessages` and the fetch stability check.
- `receive.dfy`: `handleReceive`.
- `grouping.dfy`: `displayMessages`.
- `reactions.dfy`: the reaction toggle, the reaction update and the edit.
- `chat_store.dfy`: the store.
- `deletion.dfy`: `performDelete`.

Timestamps are integer milliseconds.

In three places the code differs from what a reader might expect, and the
model follows the code:
- The `clientId` match compares the incoming `clientId` with the
  placeholder's **id**, not with the placeholder's own `clientId`. So a
  placeholder whose id differs from the echoed `clientId` is resolved only by
  the content match.
- The one-minute grouping window is measured from the run's **first** image,
  not between neighbours.
- The first, non-silent fetch installs the page without merging it.

## Model

| member | source | states |
|---|---|---|
| Reconcile.Survivors | frontend/src/components/ChatDetailView.tsx:142-155 | a placeholder is kept iff it is a `temp-` entry of the working set and no page entry has its id as `clientId` or the same text, sender and type (and the same media for images) |
| Reconcile.MergeOrdered | frontend/src/components/ChatDetailView.tsx:159-161 | the merge is non-increasing in timestamp and holds no tombstoned id |
| Reconcile.MergeCounts | frontend/src/components/ChatDetailView.tsx:140-162 | the merge is, as a multiset, exactly the live surviving placeholders plus the live page entries: nothing lost or duplicated |
| Reconcile.MergeOrigin | frontend/src/components/ChatDetailView.tsx:142-159 | every merged entry is from the page or is an unmatched placeholder; confirmed entries of the working set are not carried over |
| Reconcile.PlaceholderResolution | frontend/src/components/ChatDetailView.tsx:146-161 | a placeholder not on the page is in the merge iff nothing on the page stands for it and its id is not tombstoned |
| Reconcile.PageEntriesKept | frontend/src/components/ChatDetailView.tsx:157-161 | a live, non-placeholder page entry occurs in the merge exactly as often as on the page |
| Reconcile.MergeStable | frontend/src/components/ChatDetailView.tsx:159 | within one timestamp the merge lists the surviving placeholders first, then the page, each in its own order (stable sort) |
| Reconcile.MergeIsSortOfLive | frontend/src/components/ChatDetailView.tsx:159-161 | dropping tombstones after the sort gives the same list as dropping them before it |
| Reconcile.MergeIdempotent | frontend/src/components/ChatDetailView.tsx:140-162 | merging the same page into the merge result changes nothing when the server sends no `temp-` ids |
| Reconcile.FetchUpdate | frontend/src/components/ChatDetailView.tsx:213-221 | a non-silent fetch installs the page minus tombstones, a silent one the merge; the previous list object is kept iff the result equals it |
| Reconcile.PollSettles | frontend/src/components/ChatDetailView.tsx:213-221 | after one silent poll, a second poll with the same page keeps the list object |
| Ordering.SortCorrect | frontend/src/components/ChatDetailView.tsx:159 | the sort yields a newest-first permutation that keeps the relative order of equal timestamps |
| Ordering.StableOrderUnique | frontend/src/components/ChatDetailView.tsx:159 | two newest-first lists with the same per-timestamp order are equal, so the stable sort's result is determined |
| Ordering.SortUnique | frontend/src/components/ChatDetailView.tsx:159 | any newest-first list with the input's per-timestamp order is the sort of the input |
| Grouping.RunLength | frontend/src/components/ChatDetailView.tsx:173-183 | the inner loop's reach: every entry inside joins the run's first image and the next one does not |
| Grouping.ImageRun | frontend/src/components/ChatDetailView.tsx:172-183 | the inner loop collects exactly the entries after the image that join it, up to the first that does not |
| Grouping.DisplayMessages | frontend/src/components/ChatDetailView.tsx:164-203 | the outer loop, with the inner loop as `ImageRun`, computes the row-by-row grouping `Group` of the working set |
| Grouping.GroupLossless | frontend/src/components/ChatDetailView.tsx:164-203 | replacing each grid row by its images gives back the working set exactly, in order |
| Grouping.GroupRowsWellFormed | frontend/src/components/ChatDetailView.tsx:171-192 | every grid has at least two images, id `grid-` plus its first image's id, and only images from that sender within 60000 ms of the first |
| Grouping.FirstRowWellFormed | frontend/src/components/ChatDetailView.tsx:185-196 | the row the loop appends is a single entry or a well-formed grid |
| Grouping.GroupMaximal | frontend/src/components/ChatDetailView.tsx:174-183 | runs are maximal: the row after an image row starts with an entry that could not have joined it |
| Grouping.RunLengthExact | frontend/src/components/ChatDetailView.tsx:174-183 | the run ends at the first position that does not join |
| Receive.FirstIndex | frontend/src/components/ChatDetailView.tsx:252 | `findIndex`: the first index satisfying the predicate, none before it, or none at all |
| Receive.FindIndex | frontend/src/components/ChatDetailView.tsx:262 | the search loop returns that first index, or -1 |
| Receive.HandleReceive | frontend/src/components/ChatDetailView.tsx:244-271 | the push handler computes `Receive` of the previous working set |
| Receive.ReceiveIgnores | frontend/src/components/ChatDetailView.tsx:245-248 | an event for another chat or with a known id leaves the list unchanged |
| Receive.ReceiveByClientId | frontend/src/components/ChatDetailView.tsx:251-257 | a `clientId` naming an entry replaces the first such entry in place, length kept |
| Receive.ReceiveOwnByText | frontend/src/components/ChatDetailView.tsx:261-267 | otherwise the user's own message replaces the first placeholder with the same text |
| Receive.ReceivePrepends | frontend/src/components/ChatDetailView.tsx:269 | otherwise the message is prepended, adding exactly one entry |
| Receive.ReceiveKeepsIdsUnique | frontend/src/components/ChatDetailView.tsx:244-271 | a working set with unique ids keeps unique ids after a push |
| Overlays.ToggleReaction | frontend/src/components/ChatDetailView.tsx:411-433 | entries with other ids are untouched; the matching entries get the toggled reactions |
| Overlays.ToggleFlips | frontend/src/components/ChatDetailView.tsx:424-429 | an allowed toggle appends an absent user to the end of that emoji's list, or removes a present user keeping the others in order, and leaves other emoji alone |
| Overlays.ToggleRefused | frontend/src/components/ChatDetailView.tsx:420-422 | a new emoji on a message with two or more keys leaves the reactions unchanged |
| Overlays.ToggleKeepsCap | frontend/src/components/ChatDetailView.tsx:417-429 | a message with at most two emoji keys still has at most two after a toggle |
| Overlays.ToggleKeepsListsNonEmpty | frontend/src/components/ChatDetailView.tsx:424-426 | removing the last user deletes the key, so no key maps to an empty list |
| Overlays.ToggleTwiceRestores | frontend/src/components/ChatDetailView.tsx:411-433 | toggling the same emoji twice from an allowed state restores the original map |
| Overlays.ReactionUpdate | frontend/src/components/ChatDetailView.tsx:295-300 | the server's map overwrites `reactions` on the matching id only, and only for the open chat |
| Overlays.ServerReactionsWin | frontend/src/components/ChatDetailView.tsx:297-299 | a reaction update after a local toggle gives the same list as without the toggle |
| Overlays.SaveEdit | frontend/src/components/ChatDetailView.tsx:542 | the new text and `isEdited` land on the matching id only; the length is kept |
| Overlays.SaveEditKeepsIds | frontend/src/components/ChatDetailView.tsx:542 | an edit keeps every id and the order |
| Deletion.RowIndex | frontend/src/components/ChatDetailView.tsx:338 | `find` on the display rows: the first row with that id, or none |
| Deletion.DeleteGridRow | frontend/src/components/ChatDetailView.tsx:334-341 | deleting a grid row's id targets exactly its images' ids and removes exactly the entries carrying them |
| Deletion.DeleteTargetsSingle | frontend/src/components/ChatDetailView.tsx:334-341 | the delete targets just the given id iff that id does not name a grid row |
| Deletion.AddTombstones | frontend/src/components/ChatDetailView.tsx:346 | the tombstones become the old ones plus the targets, old ones first, never listing an id twice |
| Deletion.AddTombstonesIdempotent | frontend/src/components/ChatDetailView.tsx:346 | tombstoning the same ids again changes nothing |
| Deletion.TombstoneAll | frontend/src/components/ChatDetailView.tsx:346 | the tombstone loop leaves the store's tombstones equal to `AddTombstones` of the old ones and the targets |
| Deletion.UnstarEach | frontend/src/components/ChatDetailView.tsx:348-351 | the unstar loop leaves the starred list equal to `UnstarAll` of the old one and the targets |
| Deletion.UnstarAll | frontend/src/components/ChatDetailView.tsx:348-351 | exactly the starred entries whose id is not a target remain |
| Deletion.PerformDelete | frontend/src/components/ChatDetailView.tsx:333-352 | the working set loses the targets' entries; every target is tombstoned and unstarred in the store, and no other store field changes |
| ChatStore.ToggleSelectionFlips | frontend/src/stores/useChatStore.ts:100-104 | the toggle flips the id's membership and leaves every other id's membership alone |
| ChatStore.ToggleSelectionTwice | frontend/src/stores/useChatStore.ts:100-104 | toggling an absent id twice restores the original list |
| ChatStore.ToggleSelectionKeepsNoDuplicates | frontend/src/stores/useChatStore.ts:100-104 | the selection never lists an id twice |
| ChatStore.AddTombstoneProperties | frontend/src/stores/useChatStore.ts:361-363 | the tombstone add is idempotent, leaves a present id's list unchanged, appends otherwise and keeps the list duplicate-free |
| ChatStore.WithSetting | frontend/src/stores/useChatStore.ts:268 | the set flag reads back its new value and every other flag its old one |
| ChatStore.Unstar | frontend/src/stores/useChatStore.ts:339 | exactly the starred entries with another id remain |
| ChatStore.MarkReadScope | frontend/src/stores/useChatStore.ts:348-352 | only that chat changes, and only its count for the reader, which becomes 0; other readers keep their counts |
| ChatStore.ChatStore.constructor | frontend/src/stores/useChatStore.ts:88-97 | the initial state: no socket, not connected, everything empty, selection mode off |
| ChatStore.ChatStore.ToggleSelectionMode | frontend/src/stores/useChatStore.ts:99 | sets the mode and empties the selection, nothing else |
| ChatStore.ChatStore.ToggleMessageSelection | frontend/src/stores/useChatStore.ts:100-104 | the selection becomes the toggle of the old one, still duplicate-free |
| ChatStore.ChatStore.ClearSelection | frontend/src/stores/useChatStore.ts:105 | empties the selection and turns the mode off |
| ChatStore.ChatStore.ConnectSocket | frontend/src/stores/useChatStore.ts:107-173 | a no-op while a socket exists, else the store holds a new socket for that token and user |
| ChatStore.ChatStore.OnConnect | frontend/src/stores/useChatStore.ts:115-121 | the `connect` event marks the store connected |
| ChatStore.ChatStore.OnDisconnect | frontend/src/stores/useChatStore.ts:123-126 | the `disconnect` event marks it disconnected |
| ChatStore.ChatStore.DisconnectSocket | frontend/src/stores/useChatStore.ts:176-179 | leaves no socket and not connected |
| ChatStore.ChatStore.OnChatUpdated | frontend/src/stores/useChatStore.ts:128-145 | a known chat gets the new last message and `updatedAt`, other chats untouched; an unknown chat changes nothing and asks for a refetch |
| ChatStore.ChatStore.OnMessageDeleted | frontend/src/stores/useChatStore.ts:151-159 | only that chat's list changes, losing exactly the entries with that id |
| ChatStore.ChatStore.OnMessageEdited | frontend/src/stores/useChatStore.ts:161-171 | only that chat's list changes, by the same edit as the screen's |
| ChatStore.ChatStore.AddMessage | frontend/src/stores/useChatStore.ts:225-232 | that chat's list gains exactly one entry at the end |
| ChatStore.ChatStore.ClearChat | frontend/src/stores/useChatStore.ts:234-250 | that chat's list is empty and only that chat loses its last message |
| ChatStore.ChatStore.ToggleChatSetting | frontend/src/stores/useChatStore.ts:263-278 | only that chat's settings change, in one flag |
| ChatStore.ChatStore.StarMessage | frontend/src/stores/useChatStore.ts:289-305 | `starred: true` prepends one entry, `starred: false` removes all entries with that id, a failed request changes nothing |
| ChatStore.ChatStore.BlockUser | frontend/src/stores/useChatStore.ts:317-325 | appends the user |
| ChatStore.ChatStore.UnblockUser | frontend/src/stores/useChatStore.ts:326-334 | removes every occurrence of the user |
| ChatStore.ChatStore.DeleteMessageFromStore | frontend/src/stores/useChatStore.ts:337-341 | removes every starred entry with that id |
| ChatStore.ChatStore.MarkAsRead | frontend/src/stores/useChatStore.ts:343-359 | with no signed-in user nothing changes; otherwise the chats become the read-marked list |
| ChatStore.ChatStore.AddDeletedMessageId | frontend/src/stores/useChatStore.ts:361-363 | the tombstones become the idempotent add of the id, still duplicate-free |

## Left out

- Network I/O is not modelled: REST calls, socket `emit`, and the `fetchChats` /
  `fetchChatSettings` calls that follow events. Server answers are parameters:
  - the fetched page;
  - `starred`, which is `None` for a failed request;
  - the event payloads.
- `fetchChats`, `createChat`, `sendMessage`, `fetchChatSettings`,
  `fetchStarredMessages` and `fetchBlockedUsers` are left out. They only copy a
  server response into a field, or only do I/O.
- The one-second polling interval and the interleaving of poll, push and user
  actions are concurrency. Each update is one atomic step on the list.
- The polling effect captures `deletedMessageIds` when it is created, so a
  running poll can use an outdated tombstone list. This React closure
  behaviour is not modelled: the merge takes the tombstones as a parameter.
- The push subscription is not modelled. The effect registers
  `handleReceive` on `receive_message` again whenever it re-runs, and its
  cleanup never unsubscribes it (`ChatDetailView.tsx:273-277`), unlike the
  reaction listener, which is removed (`ChatDetailView.tsx:307`). So after switching chats, an earlier
  handler, bound to the earlier chat and user, can still prepend that
  chat's messages to the current list. The model has one handler, bound to
  the open chat. `Receive.ReceiveIgnores` speaks of that handler only.
- `JSON.stringify` is modelled as structural equality of the lists.
- `Date` parsing, `Date.now()`, `Math.random()` placeholder ids, and the
  `starredAt` ISO string are not modelled:
  - timestamps are given integers;
  - the starring time is a parameter.
- React rendering, modals, the keyboard, the image picker, the clipboard,
  uploads and the floating-point aspect ratio are not part of this model.
- Absent optional fields are modelled by empty values:
  - `reactions` as the empty map;
  - `unreadCounts` as the empty map;
  - a chat's settings as all flags unset.
- Comparing `mediaUrl` arrays uses JavaScript reference identity. A freshly
  fetched array never equals a placeholder's, so `SameMedia` is false for
  arrays.
- `handleDeleteSelected` is not modelled. It calls `performDelete` once per
  selected id from the same rendered display rows.
- The backend controllers, the Firebase configuration, `App.tsx` and the API
  client wrapper are not part of this model.
- Reconcile.MergeIdempotent: proved only when the page holds no `temp-` ids.
  A page entry carrying a `temp-` id (an image with a URL array, say) is not
  matched by itself, so a second merge would list it twice.
- Reconcile.PollSettles: proved under the same condition as MergeIdempotent.
- ChatStore.ChatStore.OnConnect: requires a held socket. The event only fires
  on a socket the store created.
