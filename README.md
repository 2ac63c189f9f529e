# Bible study app chat: reactions, pins, relative time and phone sign-in

A Dafny model of the logic inside four React Native components of the Bible
study app's group chat:

- **Message list.** The component groups the reaction rows of the visible
  messages by message id. It projects each message's rows onto the offered
  emoji as `{emoji, count, reacted}` badges. It toggles one user's reaction,
  or a message's pin, against the backend tables and then re-reads that one
  message. It builds the pin map from the pin rows.
- **Message bubble.** It shows a relative timestamp (`12s ago`, `5m`, `3h`,
  `2d`) and an avatar initial.
- **Reaction badges.** Only reactions with a positive count are shown, and
  nothing is rendered when none is.
- **Phone sign-in screen.** The typed number is cleaned to digits and
  prefixed with the country code. A one-time code goes to that number. The
  six-digit code typed back is checked against the number it was sent to.

The hosted backend's two tables are sets of rows held by a `Backend` object.
Each query returns the matching rows once each, in an order the model leaves
open. Whether a table read or write succeeds comes in as a boolean parameter
of the operation. The two one-time-code calls, which send the code and check
it, have no table model: how each ends (accepted, answered with an error, or a
rejected promise) comes in as a parameter. The clock is also a parameter: `now` and the message's timestamp
are passed as integer milliseconds.

Modules, one file each:

- `Seqs` (seqs.dfy) holds `filter`, `some` and the subsequence relation.
- `Text` (text.dfy) holds the digit filter, JavaScript's `trim`, decimal
  numerals and one-character upper case.
- `MessageReactions` (message_reactions.dfy), `MessageBubble`
  (message_bubble.dfy), `MessageList` (message_list.dfy) and `Auth`
  (auth.dfy) follow the four components.
- `Wrappers` (wrappers.dfy) holds `Option`.

The component state is written as classes whose methods change fields:
`MessageList.MessageListState` and `Auth.AuthScreen`. The `forEach` loops
that build the reaction map and the pin map are `while` loops, proved
against the functions `ByMessage` and (for pins) the returned ids. The
per-emoji projection, the badge filter, the relative time and the initial
are functions.

Where the code and its comments differ, the model follows the code:

- The first sign-in step is named `enter-email`, the comments speak of a
  "4-digit" code and of email, and none of that is what the code does. The
  code asks for a phone number and checks for six digits. The model keeps
  the step's name `EnterEmail` and checks six digits.
- The emoji list at components/MessageList.tsx:197 is stored mis-decoded and
  differs from the bubble's default list (components/MessageBubble.tsx:27).
  It is kept verbatim as `MessageList.ListEmojis`. No lemma relies on the two
  lists being equal; the projection takes the emoji list as a parameter.

## Model

| member | source | states |
|---|---|---|
| Text.OnlyDigits | components/Auth.tsx:42 | the cleaned number holds only the characters 0-9 and is no longer than the input |
| Text.OnlyDigitsKeepsDigitsInOrder | components/Auth.tsx:42 | cleaning keeps every digit as often as it occurs, drops every other character, and keeps the input order |
| Text.OnlyDigitsIdempotent | components/Auth.tsx:42 | cleaning a cleaned number changes nothing |
| Text.OnlyDigitsOfDigits | components/Auth.tsx:144 | a string of digits passes the filter unchanged |
| Text.OnlyDigitsAppend | components/Auth.tsx:42-43 | the filter distributes over concatenation |
| Text.Decimal | components/MessageBubble.tsx:120-123 | the number in a label is written with at least one digit, digits only, and no leading zero |
| Text.ParseDecimalOfDecimal | components/MessageBubble.tsx:120-123 | reading back the numeral of a label gives the number that was written |
| Text.DecimalInjective | components/MessageBubble.tsx:120-123 | distinct numbers are written as distinct numerals |
| Text.TrimStart | components/Auth.tsx:62 | the result is a suffix of the input; it drops only leading white space and starts with a non-space |
| Text.TrimEnd | components/Auth.tsx:62 | the result is a prefix of the input; it drops only trailing white space and ends with a non-space |
| Text.Trim | components/Auth.tsx:62 | the trimmed code is no longer than the input and has no white space at either end |
| Text.TrimOfUnpadded | components/Auth.tsx:62 | a string with no white space at either end is its own trim |
| Text.TrimOfDigits | components/Auth.tsx:62 | a string of digits is its own trim |
| Text.TrimIdempotent | components/Auth.tsx:62 | trimming twice is trimming once |
| Text.UpperAscii | components/MessageBubble.tsx:46 | upper-casing maps a-z to A-Z at the same offset, leaves every other character alone, and never yields a lower-case letter |
| MessageReactions.Shown | components/MessageReactions.tsx:17 | every shown reaction has a positive count; each reaction with a positive count keeps its multiplicity and every other is dropped; the shown list keeps the input order |
| MessageReactions.RendersNothingIffNoCount | components/MessageReactions.tsx:17-18 | nothing is rendered exactly when no reaction has a positive count |
| MessageReactions.PositiveReactionIsShown | components/MessageReactions.tsx:17 | no reaction with a positive count is dropped |
| MessageReactions.ShownIdempotent | components/MessageReactions.tsx:17 | filtering the shown list again changes nothing |
| MessageBubble.ElapsedSeconds | components/MessageBubble.tsx:119 | the elapsed seconds are never negative; they are the whole seconds between the two readings; less than a second, or a future timestamp, gives 0 |
| MessageBubble.Classify | components/MessageBubble.tsx:120-123 | the bucket is the largest unit the diff reaches, with the figure rounded down; seconds show the diff itself, minutes lie in 1..59, hours in 1..23, days are at least 1 |
| MessageBubble.FitsUnique | components/MessageBubble.tsx:120-123 | the buckets are exclusive and exhaustive: only one unit and figure fit each diff |
| MessageBubble.Render | components/MessageBubble.tsx:120-123 | every label reads back as the bucket and the figure it was written from |
| MessageBubble.RelativeTime | components/MessageBubble.tsx:116-124 | the label of `getRelativeTime` reads back as the bucket and figure of the whole seconds elapsed |
| MessageBubble.FutureIsZeroSecondsAgo | components/MessageBubble.tsx:119-120 | a timestamp in the future, or less than a second old, reads `0s ago` |
| MessageBubble.RelativeTimeRanges | components/MessageBubble.tsx:116-124 | the label for each range: `<diff>s ago` below 60, `<diff/60>m` with 1..59 below 3600, `<diff/3600>h` with 1..23 below 86400, `<diff/86400>d` with at least 1 beyond |
| MessageBubble.SameLabelSameBucket | components/MessageBubble.tsx:116-124 | two readings show the same label exactly when they fall in the same bucket with the same figure |
| MessageBubble.Initial | components/MessageBubble.tsx:46 | the initial is one character and never a lower-case letter; an empty name gives `?`; otherwise it is the upper-cased first character |
| MessageList.RowsForSnoc | components/MessageList.tsx:145-147 | one more row extends only its own message's rows, at the end |
| MessageList.NoRowsFor | components/MessageList.tsx:144-148 | a message with no rows has an empty list |
| MessageList.ByMessage | components/MessageList.tsx:144-148 | the grouped map the loop builds, as a specification: one key per message id among the rows, holding that message's rows in query order (its properties are the `RowUnderItsMessage`, `GroupHoldsOnlyItsRows` and `GroupingKeepsEveryRow` rows) |
| MessageList.ByMessageSnoc | components/MessageList.tsx:145-147 | one more row is appended to its own message's list, which is created when the message had none; no other list changes |
| MessageList.GroupByMessage | components/MessageList.tsx:144-148 | the loop builds exactly the grouped map `ByMessage` of the rows |
| MessageList.RowUnderItsMessage | components/MessageList.tsx:144-148 | every row is listed under its own message id |
| MessageList.GroupHoldsOnlyItsRows | components/MessageList.tsx:144-148 | each list is non-empty and holds only rows of its own message, each as often as the query returned it, in query order |
| MessageList.GroupingKeepsEveryRow | components/MessageList.tsx:145-148 | the lengths of the grouped lists add up to the number of rows |
| MessageList.Tally | components/MessageList.tsx:199-205 | the badge carries its emoji; its count is the number of rows with that emoji; it is marked reacted exactly when such a row belongs to the signed-in user |
| MessageList.Summarize | components/MessageList.tsx:196-206 | one badge per offered emoji, in the list's order, each with the count and reacted mark above |
| MessageList.ViewFor | components/MessageList.tsx:196-206 | the view of a message from the map has one badge per offered emoji in order, counting that message's listed rows with the emoji (none when the map has no entry) |
| MessageList.ListBadgesHaveDistinctKeys | components/MessageList.tsx:197-206 | with the list's own emoji, the four tallies of a message carry pairwise distinct emoji, so the keys of the shown badges never clash |
| MessageList.NoRowsNoReactions | components/MessageList.tsx:196-206 | a message with no entry in the map, or an empty list, shows every emoji with count 0, not reacted, and renders no badge |
| MessageList.ViewCountsQueryRows | components/MessageList.tsx:196-203 | the count shown through the grouped map is the number of query rows of that message with that emoji |
| MessageList.ViewCountPositive | components/MessageList.tsx:196-203 | a count is positive exactly when the query returned a row of that message with that emoji |
| MessageList.NoBadgesIffNoMatchingRows | components/MessageList.tsx:196-206 | nothing is rendered under a message exactly when none of its rows carries an offered emoji |
| MessageList.ShownCountIsTableCount | components/MessageList.tsx:200-203 | when a message's list holds exactly its table rows, each once, the count for an emoji is the number of table rows of that message with that emoji |
| MessageList.ViewCountIsTableCount | components/MessageList.tsx:196-203 | when the message's list in the reaction map (or its absence) is in step with the table, each row once, every offered emoji's count read through the map is its number of table rows for that message |
| MessageList.AlreadyReacted | components/MessageList.tsx:160-161 | the `some` test on the message's list: some listed row is the user's with that emoji (a definition; see the next row) |
| MessageList.AlreadyReactedIffListed | components/MessageList.tsx:160-169 | when every listed row belongs to the message, the test holds exactly when the list holds the very row the delete removes |
| MessageList.AfterReactionWrite | components/MessageList.tsx:163-176 | the delete or insert changes only the user's row for that emoji: it is present afterwards exactly when the list did not show it |
| MessageList.ToggleFlipsOneRow | components/MessageList.tsx:160-176 | with the list in step with the table, the toggle removes the user's row for that emoji when it exists and adds it otherwise; every other row stays |
| MessageList.ToggleTwiceRestores | components/MessageList.tsx:157-184 | when the message's list is in step with the table before each toggle, two toggles with the refresh between them give back the original table |
| MessageList.StaleListDoubleTapRemoves | components/MessageList.tsx:157-184 | when the list is stale and does not show the user's existing row, the first tap leaves the table as it is and, after the refresh, the second tap deletes the row: two taps remove an existing reaction |
| MessageList.SignedIn | components/MessageList.tsx:68 | the `!userId` guard of both handlers (also line 158): a user id is present and not the empty string (a definition used by the handlers' contracts) |
| MessageList.IsPinned | components/MessageList.tsx:70 | `pins[messageId]` as a boolean, as also at line 219: the map has the key and maps it to true (a definition used by the pin contracts) |
| MessageList.AfterPinWrite | components/MessageList.tsx:70-84 | unpinning leaves no pin of the message in the group; pinning adds the current user's pin and nothing else; pins of other messages or groups stay |
| MessageList.PinToggleFlips | components/MessageList.tsx:70-83 | with the pin map in step with the table, the toggle flips the message's pinned state and touches no pin of another message or group |
| MessageList.PinTwice | components/MessageList.tsx:67-93 | with the pin map in step with the table before each toggle, pin then unpin gives back the table; unpin then pin leaves the message pinned by the current user alone, every other pin unchanged |
| MessageList.BuildPinMap | components/MessageList.tsx:56-59 | the loop maps exactly the returned ids, each to true |
| MessageList.Enumerate | components/MessageList.tsx:45-49 | a query result lists every matching row once and nothing else |
| MessageList.Backend.constructor | components/MessageList.tsx:45-49 | the backend starts with the given tables |
| MessageList.Backend.SelectReactions | components/MessageList.tsx:134-137 | the reaction query returns, once each, exactly the rows whose message is among the ids |
| MessageList.Backend.SelectPins | components/MessageList.tsx:45-49 | the pin query returns exactly the rows of the group whose message is among the ids |
| MessageList.MessageListState.constructor | components/MessageList.tsx:31-34 | the list starts with empty reaction and pin maps |
| MessageList.MessageListState.LoadPins | components/MessageList.tsx:40-65 | with no messages, or a failed query, the map stays; otherwise a message is pinned exactly when it is visible and the group has a pin row for it |
| MessageList.MessageListState.HandlePin | components/MessageList.tsx:67-97 | signed out: nothing changes; otherwise the write deletes or inserts as the map says (nothing when it fails), and only this message's key changes, to whether the group still has a pin for it (false when the read fails) |
| MessageList.MessageListState.LoadReactions | components/MessageList.tsx:128-154 | with no messages, or a failed query, the map stays; otherwise exactly the visible messages with rows have a key, and each list holds exactly the table's rows of that message, each once, so the counts shown are the table's counts |
| MessageList.MessageListState.HandleReact | components/MessageList.tsx:157-188 | signed out: nothing changes; otherwise the decision is whether the map lists the user's row for that emoji, the write deletes or inserts that row accordingly (nothing when it fails), only this message's key changes, and it holds exactly the table's rows of the message, each once, or none when the read fails |
| MessageList.ReactTwice | components/MessageList.tsx:157-188 | when the message's list starts in step with the table, two taps on the same emoji, both reaching the backend, leave the reaction table as it was |
| MessageList.PinThenUnpin | components/MessageList.tsx:67-97 | pinning then unpinning an unpinned message leaves the pin table as it was and the message unpinned |
| Auth.FullPhoneIsDigits | components/Auth.tsx:42-43 | the sent number is the country code followed by the typed digits, with no `+` added; it is all digits and equals cleaning the country code and the input together |
| Auth.FullPhone | components/Auth.tsx:42-43 | the sent number starts with the country code; the rest is all digits, every digit of the typed number as often as it occurs, in order |
| Auth.SentNumberShape | components/Auth.tsx:42-43 | for each offered country the sent number is non-empty, all digits and free of `+` |
| Auth.BareCountryCode | components/Auth.tsx:31-43 | the request carries the country code alone exactly when the typed number has no digit |
| Auth.CodeEntry | components/Auth.tsx:144-148 | the code field holds only digits, at most six |
| Auth.CodeEntryIdempotent | components/Auth.tsx:144-148 | entering the field's content again changes nothing |
| Auth.CodeEntryKeepsTypedDigits | components/Auth.tsx:144-148 | every digit among the first six typed characters survives, as often as it occurs and in order, and nothing else does |
| Auth.VerifyDecision | components/Auth.tsx:62-80 | the backend is asked exactly when the trimmed code has six characters and a code was sent, with the sent number and the trimmed code; a wrong length is reported first |
| Auth.EnabledVerifyIsChecked | components/Auth.tsx:32-80 | a six-digit code, once a code was sent, is checked as typed |
| Auth.EnabledVerifyReachesBackend | components/Auth.tsx:32-80 | on the code step with the verify button enabled, the press always reaches the backend with the typed code and the sent number |
| Auth.AuthScreen.constructor | components/Auth.tsx:19-29 | the screen starts on the phone step with empty fields, country `1`, nothing sent and not loading |
| Auth.AuthScreen.ChooseCountry | components/Auth.tsx:117-124 | picking a country sets the code to one of `1`, `44`, `91` |
| Auth.AuthScreen.TypePhone | components/Auth.tsx:107 | the phone field holds the text as typed |
| Auth.AuthScreen.TypeCode | components/Auth.tsx:144-148 | the code field holds the digits of the first six typed characters |
| Auth.AuthScreen.SendDisabled | components/Auth.tsx:31 | the send guard: loading, or an empty phone field (a definition; SendCode and VerifyCode state when it holds) |
| Auth.AuthScreen.VerifyDisabled | components/Auth.tsx:32 | the verify guard: loading, or a code whose length is not six (a definition; SendCode and VerifyCode state when it holds) |
| Auth.AuthScreen.SendCode | components/Auth.tsx:39-57 | the request goes to the cleaned full number; success stores that number and shows the code step; an error or a rejected promise keeps step and sent number; loading ends false exactly when the promise is not rejected (a loading screen has the send, verify and resend buttons disabled); the screen invariant is kept |
| Auth.AuthScreen.ResetAfterSignIn | components/Auth.tsx:87-89 | after a successful verification the phone step returns with both fields empty, and the screen invariant is kept |
| Auth.AuthScreen.VerifyCode | components/Auth.tsx:60-93 | the request is `VerifyDecision` of the code and the sent number; on a backend success the phone step returns with both fields cleared and the send and verify buttons disabled; a guard rejection, an error or a rejected promise changes neither step nor fields; loading stays true exactly when the backend's promise is rejected |

## Left out

- The table queries, inserts and deletes are replaced by the set model, with success or failure as a parameter. `signInWithOtp` and `verifyOtp` are replaced by their outcome alone, passed as a parameter; the code the service sends and the check it makes are not modelled. All of these are network I/O through a client library that is not part of this model.
- The session and profile context, the client configuration, the router layout, the message input and the home screen are not part of this model. They are plumbing or presentation.
- The `AppState` listener that starts and stops token refresh (components/Auth.tsx:10-16) is an app-lifecycle side effect.
- `Alert` and `console.log` calls are left out. They are UI and logging only.
- The clock and timestamp parsing are left out. `Date.now()`, `new Date(...).getTime()` and the NaN an invalid timestamp gives are floating-point platform calls, so integer milliseconds are passed in.
- Overlapping handler calls and React's state batching are not modelled. Each handler runs as one atomic step. `loading` is true after a step only when the sign-in service's promise was rejected, which the sign-in handlers do not catch.
- The `try`/`catch` around the message list's effects and handlers (components/MessageList.tsx:42-63, 69-96, 130-153, 159-187) is not modelled. A failed call there is modelled as an error result, not as a thrown exception. The sign-in handlers have no `try`/`catch`; a rejected promise there is the `Threw` outcome.
- The profiles query and the display-name fallback `'User'` (components/MessageList.tsx:99-125, 216) are left out. The initial takes the name as given.
- The country list's show/hide toggle and all layout and styling are presentation.
- MessageBubble.Render: `${n}` is modelled as a plain decimal numeral. JavaScript prints numbers of 10^21 and above in exponent form, and the model does not reproduce that.
- MessageBubble.Initial: `name[0]` is modelled as the first character, not the first UTF-16 code unit. `toUpperCase` maps only a-z; letters outside Basic Latin are left unchanged.
- Text.UpperAscii: maps only a-z. JavaScript's `toUpperCase` also maps letters outside Basic Latin ('é' to 'É') and can lengthen a string ('ß' to "SS"); the model leaves those characters unchanged.
- The reaction and pin toggles decide from the local map, which can be stale. The toggle-twice properties hold only when the map is in step with the table; with a stale map, two taps can remove an existing reaction (`MessageList.StaleListDoubleTapRemoves`).
- MessageList.Backend: rows are sets, so a second identical reaction row, which a table without a uniqueness constraint would allow, is not represented.
- MessageList.MessageListState.LoadPins: the loop runs over the pin rows' ids; keys a plain JavaScript object would treat specially, such as `__proto__`, are ordinary keys here.
- Auth.AuthScreen.SendDisabled and Auth.AuthScreen.VerifyDisabled are the button guards as defined (components/Auth.tsx:31-32). The handlers do not require them, because the resend button (components/Auth.tsx:163) calls `sendCode` with only `loading` as its guard.
