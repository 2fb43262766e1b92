# Psi+ state machines, verified

A Dafny model of the parts of Psi+ that keep real state or convert data, with proofs of what they
are for. `dafny verify dfyconfig.toml` checks all of it.

* **Roster** (`Tree`, `Roster`, `ContactListModel`, `RosterOrder`). The item tree is a
  heap of `Item` objects whose parent and child links are changed in place; the model keeps beside it
  the index from contacts to leaves and the queue of batched operations. The invariant `Valid` of
  `ContactListModel` holds after every operation, so it holds over every run: links agree, groups are
  never empty and never alike, the index is exactly the leaves, and whatever is not shown where its
  contact's data asks for is queued to be laid out anew. A commit then shows what a rebuild would show.
  This is false in one family of runs: a contact that leaves the list while its addition is only
  queued is not forgotten, and the next commit lays it out. In the program the contact has been
  destroyed by then, so what the commit does is undefined; in the model contacts are never destroyed,
  and it is shown. The model calls such contacts stale; commit
  equals rebuild if and only if there are none. The comparison of siblings is a strict weak order only
  because of the shape the tree keeps, and the exact condition is proved.
* **Avatars**. Images in the cache are objects with lists of users; every JID has three slots and a
  flag. All nested calls are modelled, and their nesting is bounded by the constants in the `decreases`
  clauses. Every slot holds a cached image that lists it; conversely photos and manually set pictures
  are listed exactly once and only by the image in the slot. Entries of generated avatars can be left behind,
  because a published avatar that takes their place looks for an entry of its own kind; the removal of
  such an image then takes the published avatar away. `StaleRemoval` is such a run, `OnlyOwnSlots` says
  when it cannot happen, and the ghost field `ledger` records whether it has. Files expiring on lookup
  are the same step, `RemoveItem`.
* **Reactions**. The index shown and the index by user are inverse to each other and count the same;
  what users have given determines both up to the order of nicknames.
* **ChatState**. One step of the chat state sender, and what the contact gets to see over whole runs,
  in notifications and in the messages the user writes. A conversation ends when the contact goes
  offline. The last state can run ahead of what the contact knows, when a step goes unsaid, or stay
  behind, when the contact goes offline while a state is standing; `Safe` is exactly when that does no
  harm, now or later. Message events are followed over the same runs: while the contact asks for them,
  composing and cancel take turns, except by a user who is gone and composes all the same.
* **Sessions, AccountNames, Numerals**. Longest-prefix routing, fresh ids, fresh account names.
* **Jids, Bookmarks**. Bookmarks split between the server and two local lists, saved and fetched. An
  address comes back from its text exactly if its parts can be told again, and so does a list.
* **Passwords, LogCodec, Ipc, Ranges**. Codecs with their round trips and the exact set of texts that
  survive the other way round; code point ranges.
* **Sequences, Strings, Options**. What the other modules share.

Functions the model cannot see into are constants or parameters about which only what is written is
assumed: image scaling and hashing, locale comparison (a total preorder), `QChar::isLetter` (a slash is
not a letter), and the string preparation profiles. Of these an empty node or resource is fine and an
empty domain refused, a prepared resource prepares to itself, a prepared node has no separators, and,
only where it is said when an address does not come back, a part of a prepared domain is prepared or
refused. The table behind the profiles is taken to answer alike every time.

Where the code and its comments or provisions disagree the code is followed: an image is said to be
removed only when it has no users, yet the removal empties the slots of its users; removals from the
roster have an operation that is never queued; the text of a reaction without its skin tone is
provided for but never set, because the key is changed in place before the two are compared.
Group names are taken after the account's delimiters have been replaced.

## Model

| member | source | states |
|---|---|---|
| `Tree.Item.constructor` | src/abstracttreeitem.cpp:23-26 | a new item is linked last under its parent, the rest of the tree as before, links agreeing both ways and without a cycle |
| `Tree.Item.AppendChild` | src/abstracttreeitem.cpp:74-84 | a parentless item becomes the last child; parent and child links agree in the whole tree, nothing listed twice, and no cycle arises when the parent is not under the item |
| `Tree.Item.InsertChild` | src/abstracttreeitem.cpp:62-72 | a parentless item is put at the given row, the siblings keep their order, links agree, no cycle arises when the parent is not under the item |
| `Tree.Item.SetParent` | src/abstracttreeitem.cpp:49-58 | the item leaves its old parent's list and is last in the new one's (also when both are the same); links agree, and parents still lead upwards when the new one is not under the item |
| `Tree.Item.SetRow` | src/abstracttreeitem.cpp:35-42 | the item stands at the given row and the other siblings keep their order, for either direction of the move |
| `Tree.Item.Delete` | src/abstracttreeitem.cpp:28-33 | what is destroyed is closed upwards to the item, everything else keeps its children but for the item's parent, links agree in what is left and lead upwards; the recursion ends |
| `Tree.Grafted` | src/abstracttreeitem.cpp:49-84 | once a subtree is linked under an item outside it, in whatever way, parents lead upwards in the whole tree |
| `Tree.ParentOfIndex` | src/abstracttreemodel.cpp:31-83 | parent(index(r, 0, p)) is p for every valid row r of every valid p |
| `Tree.IndexOfParent` | src/abstracttreemodel.cpp:31-83 | index(row(x), 0, parent(x)) is x for every item but the root |
| `Roster.Groups` | src/psicontact.cpp:289-319 | a contact's groups: at least one, no name twice |
| `Roster.WantedKinds` | src/contactlistmodel.cpp:213-230 | the spots of a contact, in its own data: direct if it is the account itself or groups are off, else MucPrivate iff private, NotInList iff not private and not in the list, Transports iff further an agent, Conference iff no agent but a conference, General iff none of these and without groups, and otherwise exactly its groups |
| `Roster.OnlyWanted` | src/contactlistmodel.cpp:213-230 | no other set of spots fits that description |
| `Roster.RebuiltByKind` | src/contactlistmodel.cpp:80-120 | a layout built from nothing shows every contact, under its own account, as that description has it |
| `Roster.OnlyRebuilt` | src/contactlistmodel.cpp:80-120 | and is the only layout that does |
| `Roster.RebuiltInjective` | src/contactlistmodel.cpp:522-539 | two lists of contacts give the same layout only if they are the same contacts: nobody is without a place |
| `RosterModel.FindAccount` | src/contactlistitem.cpp:290-303 | finds the account's item, or there is none among the children |
| `RosterModel.FindGroupNamed` | src/contactlistitem.cpp:305-334 | finds a group of that name, or there is none among the children of the account |
| `RosterModel.FindSpecialGroup` | src/contactlistitem.cpp:336-349 | finds a group of that special type, or there is none among the children |
| `RosterModel.FindContact` | src/contactlistitem.cpp:351-364 | finds the contact's leaf, or there is none among the children |
| `RosterModel.MisplacedExactly` | src/contactlistmodel.cpp:365-393 | comparing sorted group names, or the one special type, is right in both directions: unequal exactly if the groups shown are not the groups wanted |
| `RosterModel.NoneMisplaced` | src/contactlistmodel.cpp:365-393 | a contact shown in no group is taken for misplaced exactly if it is of no special kind |
| `RosterModel.Enqueued` | src/contactlistmodel.cpp:186-205 | or-ing an operation into the queue keeps it true that whatever is not where it is wanted is queued for a new layout |
| `RosterModel.Settle` | src/contactlistmodel.cpp:232-274 | taking out what is queued and adding it anew leaves every contact where a rebuild puts it |
| `RosterModel.StepWithout` | src/contactlistmodel.cpp:321-356 | a contact can be taken out of tree and queue without upsetting the others |
| `RosterModel.IndexedDrop` | src/contactlistmodel.cpp:329-336 | taking the last index of a contact keeps the index exactly the leaves, each once |
| `RosterModel.IndexedAppend` | src/contactlistmodel.cpp:99-120 | entering a new leaf keeps the index exactly the leaves, each once |
| `RosterModel.ContactListModel.constructor` | src/contactlistmodel.cpp:447-462 | starts with a root and nothing shown |
| `RosterModel.ContactListModel.AppendItem` | src/contactlistmodel.cpp:67-120 | a new account, group or leaf keeps the shape of the tree: proper nesting, siblings that differ, contacts under their own account |
| `RosterModel.ContactListModel.AccountItem` | src/contactlistmodel.cpp:59-78 | the account's item is found or created, never a second one |
| `RosterModel.ContactListModel.PlaceInGroup` | src/contactlistmodel.cpp:86-114 | after one round the contact is shown in that group as well, once, and nowhere else anything has changed |
| `RosterModel.ContactListModel.PlaceMisnamed` | src/contactlistmodel.cpp:86-114 | a user group called like a special group that is there: the contact is put into the special group, and not where it belongs |
| `RosterModel.ContactListModel.PlaceInGroups` | src/contactlistmodel.cpp:80-120 | after the loop the contact is shown exactly in the groups looped over |
| `RosterModel.ContactListModel.RealAddContact` | src/contactlistmodel.cpp:59-127 | a contact not shown yet is shown exactly where its present data asks for, which is told group by group from its own fields; everybody else stays where they were |
| `RosterModel.ContactListModel.AddContacts` | src/contactlistmodel.cpp:129-141 | all given contacts are laid out, the others untouched |
| `RosterModel.ContactListModel.RemoveLeaf` | src/contactlistmodel.cpp:329-352 | one leaf goes, with it a group left empty; the other contacts stay where they are |
| `RosterModel.ContactListModel.RemoveContact` | src/contactlistmodel.cpp:321-356 | the contact is shown nowhere and nothing is queued for it; one that is not monitored keeps what is queued |
| `RosterModel.ContactListModel.Clear` | src/contactlistmodel.cpp:276-305 | an empty tree, index and queue; the model is in step with the list again exactly if nobody is expected to be shown |
| `RosterModel.ContactListModel.Drain` | src/contactlistmodel.cpp:232-268 | whatever order the queue is walked in: contacts to be laid out anew leave the tree, the others stay, and the updates reported are those not swallowed by an addition |
| `RosterModel.ContactListModel.Commit` | src/contactlistmodel.cpp:232-274 | after every commit each listed or stale contact is shown where its own fields put it, told group by group, and nobody else is; this is what a rebuild gives for the listed contacts alone if and only if no contact is stale; the updates reported are those queued without an addition |
| `RosterModel.ContactListModel.InvalidateLayout` | src/contactlistmodel.cpp:522-539 | each listed contact, and nobody else, is shown where its own fields put it, told group by group, and nothing is queued or stale |
| `RosterModel.ContactListModel.SetGroupsEnabled` | src/contactlistmodel.cpp:493-499 | switching groups on or off rebuilds the layout for the new setting |
| `RosterModel.ContactListModel.AddOperation` | src/contactlistmodel.cpp:186-205 | the operation is queued with the earlier ones, or all is committed when the wait is too long; every queued addition is of a contact not shown |
| `RosterModel.ContactListModel.AddContact` | src/contactlistmodel.cpp:307-314 | a contact already monitored needs nothing, another is queued for addition |
| `RosterModel.ContactListModel.ContactUpdated` | src/contactlistmodel.cpp:358-396 | in groups: repainted if it is where its own fields put it, laid out anew otherwise; shown directly: laid out anew exactly if it belongs to groups of its own |
| `RosterModel.ContactListModel.ContactGroupsChanged` | src/contactlistmodel.cpp:398-406 | the contact is queued to be laid out anew |
| `RosterModel.ContactListModel.ContactJoins` | src/contactlistmodel.cpp:307-314 | a contact coming to the list keeps the model in step with the list |
| `RosterModel.ContactListModel.ContactChanges` | src/psicontact.cpp:164-175 | new data of a contact, signalled as updated and, with other groups, once more, keeps the model in step with the list |
| `RosterModel.ContactListModel.ContactLeaves` | src/contactlistmodel.cpp:321-356 | a contact leaving keeps the model in step; it becomes stale exactly if its addition was still only queued |
| `RosterModel.ContactListModel.TreeFacts` | src/contactlistmodel.cpp:59-120 | in every reachable tree: no group is empty, siblings differ (so no group holds a contact twice), groups of one account differ in name and special ones in type, and the index lists exactly the leaves, each once |
| `RosterModel.ContactListModel.ParentsDiffer` | src/contactlistmodel.cpp:80-120 | no two leaves of a contact are in groups of the same name or type |
| `RosterModel.StaleRun` | src/contactlistmodel.cpp:321-327 | a run in which a contact that has left the list is laid out by the next commit |
| `RosterOrder.OrderedExactly` | src/contactlistitem.cpp:161-183 | on groups and contacts side by side the comparison is a strict weak order if and only if, once there is a group, the account's own contacts come before its others |
| `RosterOrder.SiblingKinds` | src/contactlistmodel.cpp:80-120 | accounts have only accounts for siblings, and a group never has an ordinary contact for one |
| `RosterOrder.SiblingsOrdered` | src/contactlistproxymodel.cpp:148-161 | on the children of any node of any reachable tree, in both styles, the comparison is a strict weak order |
| `RosterOrder.RowsExactly` | src/contactlistitem.cpp:161-183 | rows are sorted if and only if of any two the upper stands there rightly: contacts by rank and then by locale order of lower-cased names in the status style, by code units of the names in the other; own contacts above groups, groups above other contacts; groups as General, ordinary, MucPrivate, Conference, NotInList, Transports and by locale order within a type; accounts by locale order |
| `RosterOrder.OwnRowsOnTop` | src/contactlistproxymodel.cpp:148-161 | under any node with groups of any reachable tree, sorted rows are first the own contacts and then nothing but groups |
| `RosterOrder.AccountsOrdered` | src/contactlistitem.cpp:174-175 | accounts are ordered for any locale comparison that is a total preorder |
| `Strings.BeforeTotal` | src/contactlistproxymodel.cpp:159 | the comparison of names, and of session keys, by code unit is total and asymmetric |
| `Strings.BeforeExactly` | src/contactlistproxymodel.cpp:159 | one name is before another if and only if at the first difference it ends or has the smaller code unit |
| `RosterOrder.CircleOfSiblings` | src/contactlistitem.cpp:161-183 | with an ordinary contact beside a group the comparison can go round in a circle |
| `Avatars.TypedJidRoundTrip` | src/avatars.cpp:776-807 | a user's type and JID are read back from its entry whatever colons the JID has, and each type has its own prefix |
| `Avatars.RemainingCounts` | src/avatars.cpp:757-764 | removing a user takes exactly one entry of it and, with a photo, one of the avatar made from it, and no other |
| `Avatars.PurgedSlots` | src/avatars.cpp:554-574 | removing an image empties exactly the slots it lists, in whatever order, and forgets the listed JIDs that have nothing left |
| `Avatars.OnlyOwnSlots` | src/avatars.cpp:554-574 | removing an image spares all slots holding other images if and only if none of its entries points at such a slot |
| `Avatars.AvatarCache.constructor` | src/avatars.cpp:859 | an empty cache is in order |
| `Avatars.AvatarCache.RemoveUser` | src/avatars.cpp:757-774 | the image loses the entry (a photo's with its generated avatar's) and is dropped with its last one; no other image changes |
| `Avatars.AvatarCache.DropPrevious` | src/avatars.cpp:744-749 | after an image was pushed out of a slot the lists of users are exact again, and only its entry has gone |
| `Avatars.AvatarCache.AfterSwap` | src/avatars.cpp:744-755 | what follows a new image: the old one loses its user, a photo's avatar goes, and a JID with nothing to show gets one made, which is active |
| `Avatars.AvatarCache.EnsureHasAvatar` | src/avatars.cpp:665-673 | an avatar is made exactly if nothing is active, there is a photo, and it can be read; the active icon comes back |
| `Avatars.AvatarCache.SlotsPut` | src/avatars.cpp:481-502 | what the three slots and the flag hold after an image was put in, slot by slot, and when the image shown differs: always for a picture that replaces one or is not the avatar, never for anything behind a picture, otherwise exactly if the avatar slot differs |
| `Avatars.AvatarCache.SlotsEmptied` | src/avatars.cpp:507-545 | what the slots hold after one was emptied, slot by slot, and when the image shown differs |
| `Avatars.AvatarCache.AppendUser` | src/avatars.cpp:718-755 | the slots hold what they are to hold, slot by slot, each result in exactly its case; with a manually set picture the user is told unless it is the very image that was already shown; any other change tells nobody while a picture is set, and otherwise exactly if the avatar slot differs; every slot stays backed by an image that lists it |
| `Avatars.AvatarCache.FileNew` | src/avatars.cpp:481-502 | a new image is filed under its hash with its first user, and the slots hold what they are to hold; with a manually set picture the user is told unless it is the very image that was already shown; any other change tells nobody while a picture is set, and otherwise exactly if the avatar slot differs |
| `Avatars.AvatarCache.SetIcon` | src/avatars.cpp:439-503 | each result in exactly its case; the slot holds the image of that hash, shared if it was cached and the photo as given or made small otherwise, the other slots what they are to hold; with a manually set picture the user is told unless it is the very image that was already shown; any other change tells nobody while a picture is set, and otherwise exactly if the avatar slot differs; all slots stay backed, all lists exact; the nesting of calls is bounded by a constant |
| `Avatars.AvatarCache.RemoveIcon` | src/avatars.cpp:507-545 | the slot is emptied, a photo taking its avatar along and another made if missed, slot by slot; the JID is forgotten exactly if nothing is left and it need not be kept; taking away a picture tells the user exactly if the avatar slot left behind is another image, any other removal never while a picture is set and otherwise exactly if the avatar slot differs |
| `Avatars.AvatarCache.Refill` | src/avatars.cpp:525-534 | with a slot empty the generated avatar goes with its photo and the active icon is known |
| `Avatars.AvatarCache.Leave` | src/avatars.cpp:536-542 | the JID is forgotten if empty, and the image loses the user that the slot was |
| `Avatars.AvatarCache.RemoveItem` | src/avatars.cpp:554-574 | the image leaves cache and slots, no slot is left on it; lists stay exact for photos and pictures always and, if they were exact for published avatars, stay so if and only if the image is not listed as the generated avatar of a JID that has another one published |
| `Avatars.AvatarCache.Icons` | src/avatars.cpp:408-425 | the icons of a JID after making an avatar if it is missed |
| `Avatars.StaleRemoval` | src/avatars.cpp:744-746 | a run in which the removal of one image takes away a published avatar that is another image |
| `Reactions.ChangedNicks` | src/chatviewcommon.cpp:154-163 | who is listed under a reaction after an update: the user at the end if newly given, gone if taken back, all others in order |
| `Reactions.ChangedConsistent` | src/chatviewcommon.cpp:132-179 | the two indexes stay inverse to each other, with nothing empty or twice |
| `Reactions.NobodyLeft` | src/chatviewcommon.cpp:173-177 | no reaction is left exactly if no user is, so clearing the message loses nobody |
| `Reactions.SameCount` | src/chatviewcommon.cpp:132-179 | the listed nicknames are as many as the reactions given |
| `Reactions.UpdatedGives` | src/chatviewcommon.cpp:132-179 | an update sets what this user gives to this message and nothing else, and keeps both indexes consistent for all messages |
| `Reactions.Determined` | src/chatviewcommon.cpp:132-179 | who gave what determines the whole state up to the order of nicknames |
| `Reactions.ToggledTwice` | src/chatview_webkit.cpp:868-877 | switching a reaction twice restores perUser, and total up to the order of nicknames |
| `Reactions.ToggledTwiceOrder` | src/chatview_webkit.cpp:868-877 | the order after switching twice: unchanged if the user was not listed, else the user is moved to the end |
| `Reactions.ChatView.Join` | src/chatviewcommon.cpp:154-156 | the loop adds the user to each reaction, in whatever order they come |
| `Reactions.ChatView.Part` | src/chatviewcommon.cpp:157-163 | the loop takes the user from each reaction and drops those left empty |
| `Reactions.ChatView.UpdateReactions` | src/chatviewcommon.cpp:132-179 | the incremental update sets what this user gives to this message and nothing else; what is shown for the message is who gave each reaction, the user at the end if new and all others in order |
| `Reactions.ChatView.OnReactionSwitched` | src/chatviewcommon.cpp:181-199 | the set to send is the present one with that reaction, and no other, switched, on every path |
| `Reactions.ChatView.OutgoingReaction` | src/chatview_webkit.cpp:868-877 | outside rooms the switch is applied at once, in rooms only sent |
| `ChatStates.ChatDialog.SetChatState` | src/chatdlg.cpp:1011-1091 | the new state and the messages sent are those of the step function that the run theorems, on chat states and on message events, are about |
| `ChatStates.ChatDialog.Notify` | src/chatdlg.cpp:1053-1085 | the one or two messages of a transition, with the pause between composing and inactive and the message events |
| `ChatStates.ChatDialog.IncomingEvent` | src/chatdlg.cpp:795-809 | the contact's state is the chat state received, else paused for a cancel event, else composing for a composing event, else as it was |
| `ChatStates.ChatDialog.IncomingMessage` | src/chatdlg.cpp:821-834 | events are wanted exactly if a composing event is requested; an id received is kept; the contact is active if it sends events or a state, and otherwise its state is not known |
| `ChatStates.ChatDialog.DoSend` | src/chatdlg.cpp:646-745 | what the user writes goes out last, after the notification of being active, and tells it again, whatever else suppresses sending; it asks for events exactly if the contact does |
| `ChatStates.EventsSent` | src/chatdlg.cpp:1053-1085 | over every run in which the contact goes on asking for events and steps are sent: every message of a step into composing, and of any composing step while gone, carries a composing event and nothing else; every message of a step out of composing, unless gone, a cancel event and nothing else; no other notification carries any; each has the id last received |
| `ChatStates.PlainExactly` | src/chatdlg.cpp:1087-1089 | a composing event goes out exactly at a step into composing and a cancel exactly at a step out of it, if and only if the user is not gone and composing already |
| `ChatStates.EventsAlternate` | src/chatdlg.cpp:1053-1085 | so over runs in which nobody goes on after composing while gone, composing and cancel events take turns, composing first, and the last one is composing exactly if the user is composing |
| `ChatStates.GoneTyping` | src/chatdlg.cpp:1087-1089 | composing while gone sends the event each time, and it is never cancelled |
| `ChatStates.StepTells` | src/chatdlg.cpp:1030-1089 | which chat state a step that is sent tells, for every last state and every requested one, and what the last state is then |
| `ChatStates.StepUntold` | src/chatdlg.cpp:1011-1091 | when a step tells nothing, and that the machine goes on all the same if sending is suppressed but not if nobody is watching or reachable |
| `ChatStates.OfflineSilent` | src/chatdlg.cpp:496-497 | once the contact is offline the machine tells no state, whatever it is asked to, until the contact is heard of |
| `ChatStates.RunProper` | src/chatdlg.cpp:1011-1091 | over any run in which what goes unsaid does no harm and the machine keeps up: no conversation, each ending with the contact going offline, begins with paused or inactive, composing and inactive are never adjacent, nobody gone idles before being active again, and states repeat only after an unsaid pause or when gone |
| `ChatStates.SafeExactly` | src/chatdlg.cpp:1036-1089 | whatever happened before, the trace is proper and stays so however the machine goes on, as long as it is heard, if and only if it is proper now and the last state is safe for what the contact knows |
| `ChatStates.UnsaidExactly` | src/chatdlg.cpp:1053-1089 | a step that goes unsaid, for suppressed sending, an offline account or a contact who only takes events, lets the trace stay proper if and only if the new last state is safe |
| `ChatStates.RunPrivate` | src/chatdlg.cpp:1030-1034 | with inactivity events off no run tells of leaving or idling |
| `ChatStates.GoneClosed` | src/chatdlg.cpp:1087-1089 | unless the trace is still open after a gone, the contact was told of a return or was lost since |
| `ChatStates.KeptUpExactly` | src/chatdlg.cpp:496-497 | the contact going offline lets the trace stay proper if and only if no state is standing, and a message to a contact whose state is not known if and only if the user is not taken to be gone |
| `ChatStates.OfflineStart` | src/chatdlg.cpp:496-497 | a run in which the contact goes offline and comes back: the new conversation begins with a pause |
| `ChatStates.SuppressedStart` | src/chatdlg.cpp:1054-1089 | a run with sending suppressed once: the conversation begins with a pause |
| `ChatStates.RepeatedAfterGone` | src/chatdlg.cpp:1087-1089 | composing after gone is told again at every step |
| `ChatStates.AskedIsKnown` | src/chatdlg.cpp:821-834 | until the contact goes offline, one who asked for events is one whose chat state is known |
| `Numerals.NumeralValue` | src/accountadddlg.cpp:76 | a printed number is read back, in any base, and has no leading zero |
| `Numerals.Injective` | src/accountadddlg.cpp:76 | different numbers are printed differently |
| `AccountNames.TakenByAccounts` | src/accountadddlg.cpp:61-80 | there are no more taken candidates in a row than accounts |
| `AccountNames.CreateNewAccountName` | src/accountadddlg.cpp:61-80 | ends within one more candidate than there are accounts, with a free name: the wanted one, or the same with an underscore and the least number that makes it free |
| `Sessions.FindFirst` | src/chatviewthemeprovider_priv.cpp:180-184 | looking up a key gives its live handler, or there is none |
| `Sessions.LaterIsLonger` | src/chatviewthemeprovider_priv.cpp:197-207 | of two keys matching a path the later in order is the longer |
| `Sessions.SessionIdsDiffer` | src/chatviewthemeprovider_priv.cpp:343-351 | different seeds give different ids |
| `Sessions.ChatViewCon.Insert` | src/chatviewthemeprovider_priv.cpp:348 | the keys stay in order and one entry is new |
| `Sessions.ChatViewCon.RegisterSessionHandler` | src/chatviewthemeprovider_priv.cpp:343-351 | the id issued is the letter t and the seed in hexadecimal, and has never been issued before, so no session is replaced |
| `Sessions.ChatViewCon.UnregisterSessionHandler` | src/chatviewthemeprovider_priv.cpp:353 | that session goes and no other |
| `Sessions.ChatViewCon.Route` | src/chatviewthemeprovider_priv.cpp:168-215 | the header decides if it names a live session, and its handler gets the path as it is; else path and base path put together are the path asked for, cut behind the longest live key that no letter follows, whose handler gets the rest; unhandled exactly if there is none; a path of a live session's key, with nothing or a slash behind, gives its handler exactly what stands behind the key |
| `Sessions.ChatViewCon.RouteByPath` | src/chatviewthemeprovider_priv.cpp:192-210 | base path and rest put together are the path, cut behind the longest live key that no letter follows, or no live key fits; sessions without a handler, and only those, are cleared away |
| `Sessions.OwnPath` | src/chatviewthemeprovider_priv.cpp:192-210 | a path naming a live session, with nothing or a slash behind, goes to that session whatever other ids are prefixes of it |
| `Sessions.OwnRequest` | src/chatviewthemeprovider_priv.cpp:192-210 | and that session is given what stands behind its key |
| `Sessions.StrayPath` | src/chatviewthemeprovider_priv.cpp:192-210 | a path naming no live session is answered exactly if a live id is a proper beginning of the name with no letter next |
| `Sessions.Stray` | src/chatviewthemeprovider_priv.cpp:343-351 | ids that are issued can be such beginnings of each other |
| `Jids.ParseFull` | iris/src/xmpp/jid/jid.cpp:213-265 | a prepared address whose parts can be told again is written as node, at sign, domain, slash, resource, and is the same when read in |
| `Jids.ReadExactly` | iris/src/xmpp/jid/jid.cpp:213-265 | and no other is: written out and read in a prepared address is the same if and only if there is no slash in its domain and no at sign in the domain of an address without node |
| `Jids.ParseFullFails` | iris/src/xmpp/jid/jid.cpp:228-265 | an address with an empty node and an at sign in its domain, as read from text, is not the same when written out and read again |
| `Jids.RoomRead` | iris/src/xmpp/jid/jid.cpp:308-343 | a room's address with a nick for resource reads as the same room if the nick is usable, and as no address otherwise |
| `Bookmarks.ReadConference` | src/conferencebookmark.cpp:71-89 | name, address and join type are those of the attributes, autojoin true for two spellings; nick and password are the text of the last child element of that name, or empty if there is none |
| `Bookmarks.XmlRoundTrip` | src/conferencebookmark.cpp:71-104 | for every bookmark: the server keeps everything but on which computers to join, and the address as it reads |
| `Bookmarks.UrlRoundTrip` | src/urlbookmark.cpp:35-49 | a URL bookmark comes back as it was |
| `Bookmarks.MakeStorage` | src/bookmarkmanager.cpp:33-51 | the storage element holds all URLs, then all conferences, in order, each under its tag |
| `Bookmarks.Take` | src/bookmarkmanager.cpp:66-99 | what is taken from a reply is all non-null bookmarks of its storage elements, in order, and nothing else |
| `Bookmarks.FetchedConferences` | src/bookmarkmanager.cpp:33-99 | what was put in the storage element is taken out of it, in order, with addresses as they read, but for null bookmarks and the join types it cannot hold |
| `Bookmarks.LocalRooms` | src/bookmarkmanager.cpp:225-268 | a room is read from the local list exactly if a bookmark for this computer only, with a usable nick, put it there |
| `Bookmarks.IgnoredRooms` | src/bookmarkmanager.cpp:269-271 | a room is on the ignore list exactly if a bookmark excepts this computer |
| `Bookmarks.RestoredAt` | src/bookmarkmanager.cpp:216-284 | for every list of addresses that can be read again, duplicates included: each bookmark comes back with all fields, and which join type it gets |
| `Bookmarks.RestoredExactly` | src/bookmarkmanager.cpp:216-284 | with distinct rooms and prepared addresses the list comes back as it was if and only if every address can be read again and every room for this computer only has a usable nick |
| `Bookmarks.Elsewhere` | src/bookmarkmanager.cpp:225-241 | on a computer with empty local lists a fetch changes no join type, so this computer only reads as never and except this computer as always |
| `Bookmarks.BookmarkManager.GetBookmarksFinished` | src/bookmarkmanager.cpp:216-251 | the loops set the join types the local lists ask for, the ignore list winning; a failed fetch changes no bookmark |
| `Bookmarks.BookmarkManager.SetBookmarksFinished` | src/bookmarkmanager.cpp:253-284 | the loop builds both local lists from the saved bookmarks; a failed save changes nothing |
| `Bookmarks.BookmarkManager.SaveAndFetch` | src/bookmarkmanager.cpp:216-284 | saving and fetching any list through the server, whatever else its reply holds, ends in the restored list |
| `Bookmarks.BookmarkManager.AddConference` | src/bookmarkmanager.cpp:130-141 | a list is saved exactly if bookmarks are available or the new one is null, and no bookmark is of the same room: the list with the new one at the end |
| `Bookmarks.BookmarkManager.RemoveConference` | src/bookmarkmanager.cpp:143-154 | what is saved when a room is removed, if anything |
| `Bookmarks.AddedRemoved` | src/bookmarkmanager.cpp:130-154 | adding keeps rooms distinct, and removing the room added gives the list back |
| `Bookmarks.OthersKept` | src/bookmarkmanager.cpp:143-154 | exactly the bookmarks of other rooms are kept, each as often as before: those whose bare address differs, or of which just one of the two addresses is valid |
| `Passwords.HexRoundTrip` | src/common.cpp:128-129 | a 16-bit unit written in four digits is read back |
| `Passwords.HexTable` | src/common.cpp:128-160 | the digits are 0 to 9 and a to f, and A to F are read as well |
| `Passwords.HexWritten` | src/common.cpp:138-163 | any four units are read as the values of their digits, the highest first |
| `Passwords.RoundTrip` | src/common.cpp:118-163 | every password comes back under its key, and is stored in four lower-case digits a unit |
| `Passwords.StoredExactly` | src/common.cpp:118-163 | a stored text survives decoding and encoding exactly if it is lower-case hexadecimal in whole groups of four |
| `Passwords.EncodePassword` | src/common.cpp:118-136 | unit n is stored as four digits of its exclusive-or with key unit n modulo the key's length; with no key the text is kept as it is |
| `Passwords.DecodePassword` | src/common.cpp:138-163 | unit n is the number in the nth four digits, exclusive-or key unit n modulo the key's length; a rest is dropped; with no key the text is kept as it is |
| `LogCodec.ThreeReplacements` | src/common.cpp:195-201 | the three replacements one after the other are one escape a character |
| `LogCodec.LogEncode` | src/common.cpp:195-201 | the encoding is the escape character by character |
| `LogCodec.EscapedFront` | src/common.cpp:195-201 | which letter stands for which character: a doubled backslash, p for the bar and n for the newline behind one, anything else itself |
| `LogCodec.LogDecode` | src/common.cpp:203-228 | the loop decodes escape by escape, dropping unknown ones and a lone backslash at the end |
| `LogCodec.RoundTrip` | src/common.cpp:195-228 | every text comes back, and its encoding has no newline and no bar |
| `LogCodec.WrittenExactly` | src/common.cpp:195-228 | a text survives decoding and encoding exactly if it is properly escaped |
| `Ipc.SendStringList` | src/activeprofiles_win.cpp:148-168 | the buffer is the strings each followed by a zero byte, although built by patching |
| `Ipc.StrLen` | src/activeprofiles_win.cpp:194-198 | the search for a zero stays within the buffer |
| `Ipc.Unpack` | src/activeprofiles_win.cpp:184-198 | a buffer not ending in zero is refused, another is split at its zeros without reading past the last; of an empty buffer the byte in front of it decides |
| `Ipc.RoundTrip` | src/activeprofiles_win.cpp:148-198 | a list of zero-free strings comes across whole but for one empty string at its end |
| `Ipc.UnpackedExactly` | src/activeprofiles_win.cpp:184-198 | what is unpacked of a buffer ending in zero is free of zeros, and packed again it is the buffer, but for the last byte of an empty string at the end |
| `Ipc.DispatchMeans` | src/activeprofiles_win.cpp:200-216 | which lists are which command, and with what arguments |
| `Ipc.ReadsAgree` | src/activeprofiles_win.cpp:200-207 | reading at any position, empty by default, gives what was sent |
| `Ipc.DispatchedExactly` | src/activeprofiles_win.cpp:200-216 | the other side does what the list says if and only if the list is not a command name and one empty string |
| `Ranges.SortedSorts` | admin/emoji.py:114 | sorting keeps the codes and puts them in order |
| `Ranges.ScannedHigh` | admin/emoji.py:115-123 | from two up the ranges are separated and hold exactly the codes |
| `Ranges.GenerateRanges` | admin/emoji.py:109-123 | the ranges are separated and hold exactly the codes if and only if there is a code and either none is below two or they run from zero without a gap |

## Left out

- Accounts switched off, disabled or destroyed, and a missing contact list: the tree always has an item for an account with contacts, and accounts stay.
- RosterModel.ContactListModel.RealAddContact: does not cover user groups called like a special group, because the tree then depends on the order in which contacts come: of two groups displayed alike the one created first is found by name. `PlaceMisnamed` shows what happens when the special group is there. The display names of special groups are taken to differ from each other.
- RosterModel.StaleRun: does not model that contacts are destroyed, so a queued contact that has left is laid out where the program reads a destroyed object.
- Signals of rows inserted, removed and changed: only the rows a commit reports as updated are kept, as contacts.
- Counts of contacts and visibility of groups, the filter of the sorted view, menus, editing, drag and drop: nothing here depends on them.
- The commit timer is a flag saying that the first queued operation has waited too long.
- Avatars.AvatarCache.SetIcon: does not model files on disk, deletion locks, lifetimes and publishing, because the file cache is a library here.
- Avatars.AvatarCache.AppendUser: as all of the cache, does not model that memory is used again. The active icon of before is compared after it may have been destroyed, so an image that gets its address is taken for it and the result is Changed instead of UserUpdateRequired; the objects of the model are never used again.
- Avatars.AvatarCache.RemoveItem: does not cover a file that expires in the middle of another call, because a lookup that expires the last icon of a JID would leave that call with a dangling reference.
- Loading the cache from disk (`updateJids`): stale entries from earlier sessions are outside the invariant; the model starts from an empty cache.
- Reactions.ChatView.UpdateReactions: does not model the order of the list shown and the skin tone text, because reactions are opaque keys of a map here.
- ChatStates.RunProper: does not promise anything for a run in which an unsafe step goes unsaid or the contact goes offline while a state is standing, because the trace can then go wrong later (`UnsaidExactly`, `KeptUpExactly`, `SuppressedStart`, `OfflineStart`); such a run may still be lucky.
- ChatStates.ChatDialog.DoSend: does not model that an encrypted message is sent later; it is taken to be sent at once.
- Sessions.ChatViewCon.RegisterSessionHandler: does not cover more sessions than fit in a signed 32-bit seed, because the overflow has no defined meaning.
- Bookmarks: encoding of the XML as text and its transport; the server is taken to return the storage element it was given.
- Bookmarks.RestoredAt: does not say which join type comes back with an address that reads as another one; that it does not come back as it was is in `RestoredExactly`. Addresses whose domain is prepared to something that is not prepared itself (as a lone soft hyphen) are not covered.
- Ipc: window messages and the conversion between strings and UTF-8; strings are sequences of bytes without zero.
- Sorting in Ranges is by first code points only, since only those are used.
- D-Bus, HTTP serving, keychain, sound, ad-hoc commands, dialogs, painting: foreign calls or user interface.
