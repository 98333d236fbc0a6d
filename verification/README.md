# Incremental event feeds and role membership of the Teleport connector

The connector reads Teleport's audit log page by page. A small cursor, stored by the consumer between
calls, says where to go on: `StartAt`, `LatestEventSeen` and Teleport's opaque `LastKey`. Two feeds share
it: the audit feed turns records into resource changes, grants and revokes, and the usage feed turns
logins into usage events. Calls fail, responses get lost, cursors get lost, the log grows between pages,
and records at the boundary time are fetched again by every cycle. This project models that machinery,
the text formats the cursor travels in, and the role builder whose full sync is what the feeds keep up to
date, and proves what a consumer can rely on.

Verify with `dafny verify dfyconfig.toml`.

## How it is layered

- `Events`, `EventLog`: events, the consumer's view as a fold, and a time-ordered log.
- `Protocol`, `ProtocolProofs`, `ProtocolTheorems`, `Repeats`, `ExactlyOnce`: the protocol as a state machine on
  instants and log positions, its invariant, and the theorems over every run. The central idea is a
  catch-up equation: applying what lies between the stored cursor and the furthest delivery to the present
  view always gives one pass over the log. Replaying a suffix of grants and revokes changes nothing, so
  each redelivery keeps it.
- `Decimal`, `Calendar`, `Timestamps`, `Base64`, `Utf8`, `JsonText`, `EventPagination`: the cursor object,
  its two in-place updates, and its codec down to characters and bytes. `CivilTime` and `CursorText` say what
  those texts mean without going through the writer or the parser: the civil date by table and closed formula,
  the JSON literally, and which tokens do not open.
- `AuditRecords`, `FeedPage`, `AuditFeed`, `UsageFeed`, `RecordEvents`: the converters and both
  `ListEvents` as they run, proved equal to functions of the request, the page and the lookups.
- `FeedRefinement`, `FeedSystem`, `FeedSimulation`: a system of real tokens, records and calls; every
  possible run of it is a run of the protocol.
- `Membership`, `Marks`, `Divergence`, `EventIds`, `EndToEnd`, `DeliveredRecords`, `QuietFeed`,
  `Counterexamples`: what that means for the consumer.
- `Roles`, `RoleHistory`, `RoleLists`: grants, revokes, the user cache and the full sync.

## What is assumed

- `SearchEvents` answers with the records of the requested types whose time lies between `from` and `to`,
  both ends included. The comment at pkg/connector/event_pagination.go:85-87 reads as if records at the
  last time were not fetched again; with an inclusive lower bound they are.
- A non-empty key resumes behind every record the page covered, so such a page makes progress; positions
  are stable, ties in time included, because the log only grows at its end, in time order.
- Any number of records may make up a page; the limit of 100 is passed on but not relied upon.
- The clock does not run backwards between calls, and its two readings within one call, for a missing start
  and for the end of the window, are one.
- An access request found by id always has the same user and roles, or is never found; a lookup may fail
  at any time. Without this a replay need not repeat what was first delivered.
- The caller passes the same earliest event until it has stored a cursor. Afterwards it no longer matters,
  which is proved.
- Record times lie in the years 0 to 9999; Teleport's own range is narrower. Go's zero time,
  0001-01-01T00:00:00Z, is an ordinary instant that converters also return for "no time".
- A create or update record carries the user's complete role list, and the log accounts for every change.
- A record's event type matches its payload, where what a consumer is given is compared with the log.
- For quiescence, no record from the feed's start on is dated exactly at Go's zero time: it would be emitted
  without its time being seen.

Access-request lookups that fail abandon the page, as pkg/connector/audit_event_feed.go:433-434 does;
docs/teleport-events.md:184 says that they are skipped. `AddRole` adds a role only if it is absent, and
`SetRoles` and `SetLogins` keep the first occurrence of each entry, as in
vendor/github.com/gravitational/teleport/api/types/user.go and
vendor/github.com/gravitational/teleport/api/utils/slices.go.

Records dated ahead of the connector's clock, and records older than the feed's start, are not excluded: every
end-to-end result is stated up to the clock of the completing call, from the feed's start.

## What does not hold

- Exactly-once delivery: `DeliveredTwice` is a run of two calls that delivers one record twice,
  `DuplicatesExactly` says which records come again, and `CompletedCycleExactlyOnce` which ids undo that.
  Those ids are unique within a record if and only if it names no role twice (`GrantIdsExactly`).
- The view of a caught-up feed is not the truth: in `ExpiryHidesRole` an expired request hides a role the user
  permanently holds, in `RemovalLeavesRole` an update that drops a role leaves it in the view.
  `CompletedCycleAgainstTruth` says exactly when each happens.
- Text order is not time order (`TextOrderDisagrees`), and timestamps outside years 0 to 9999 do not
  survive their text (`TextRoundTrip` has both directions).
- Not every record moves the cursor (`CursorSees`), and an empty user list is not cached (`OneSnapshot`).

## Model

| member | source | states |
|---|---|---|
| EndToEnd.CompletedCycleFromStart | pkg/connector/audit_event_feed.go:122-196 | After any interleaving of appends, pages, failed calls, lost responses and lost cursors, a completed cycle leaves the view of either feed one fold over the converted log, from the feed's start to the clock, on top of the initial view |
| DeliveredRecords.DeliveredExactly | pkg/connector/audit_event_feed.go:100-105 | At a completed cycle of either feed an event was delivered if and only if a record from the feed's start to the clock has it to tell: no role, lock, user, request or login record is left out, and nothing else is let in |
| RecordEvents.EntryTells | pkg/connector/audit_event_feed.go:210-243 | What a feed makes of a record, filter included, is exactly what the record has to tell, for every record whose type matches its payload |
| DeliveredRecords.OneSearch | pkg/connector/audit_event_feed.go:142-152 | The answer depends on the server through one search only: from StartAt to the clock, the feed's types spelled out, a hundred records, from LastKey on |
| DeliveredRecords.NoEarliestIsADayAgo | pkg/connector/event_pagination.go:46-54 | Without an earliest event a call is the call with an earliest event 24 hours ago, for every token |
| DeliveredRecords.FirstCallOpens | pkg/connector/event_pagination.go:46-58 | Without token and earliest event the search starts exactly 24 hours ago, with LatestEventSeen equal to StartAt and no key |
| DeliveredRecords.FirstCallDeliversADay | pkg/connector/audit_event_feed.go:122-196 | Such a first call, answered in one page, delivers exactly what the records of the last 24 hours have to tell |
| EndToEnd.CompletedCycleView | pkg/connector/audit_event_feed.go:122-196 | With full syncs among the steps too, the view is one fold from the lowest position replayed since the last sync to the clock, on top of the truth at that sync; both positions are functions of the run |
| EndToEnd.ReplayCoversSync | pkg/connector/audit_event_feed.go:134-152 | The stretch begins by the sync and reaches the end of the log when no record after the first sync is older than the feed's start and none is ahead of the clock |
| EndToEnd.CompletedCycleAgainstTruth | pkg/connector/audit_event_feed.go:250-267 | At a completed cycle the view shows a pair if and only if it was given and not revoked in that stretch, or synced and not spoken of; when the sync lies in the stretch, a held role is missing if and only if its request expired and nothing gave it again, and a role not held is shown if and only if given or synced, always because of a removal, a deletion or a temporary request |
| EndToEnd.CompletedCycleExactlyOnce | pkg/connector/audit_event_feed.go:268-286 | With distinct colon-free record ids and no role named twice in a record, a consumer that drops ids it has seen holds, in log order, exactly the converted log from the feed's start to the clock |
| EndToEnd.RetryTransparency | pkg/connector/audit_event_feed.go:168-174 | Dropping every failed call and every lookup failure from a run gives a possible run without failures that ends with the same log, token, delivered sequence and view |
| EndToEnd.SuccessNeedsNoFailures | pkg/connector/audit_event_feed.go:430-435 | A page that gets through in spite of unreliable lookups delivers what it would deliver with reliable ones |
| EndToEnd.OnlyServerErrors | pkg/connector/audit_event_feed.go:129-155 | Every token a feed ever stores opens, to times that parse, without the default start or the clock, and a call fails exactly when the search fails or a lookup of its page does |
| EndToEnd.NeverStuck | pkg/connector/audit_event_feed.go:138-195 | From every reachable state a call that the server and the lookups answer, up to the end of the window, completes the cycle |
| EndToEnd.LastLogin | pkg/connector/usage_event_feed.go:79-101 | At a completed cycle the latest usage event delivered for a user is the latest successful login in the log between the feed's start and the clock, and there is one exactly when there is the other |
| QuietFeed.NothingNew | pkg/connector/usage_event_feed.go:53-101 | For either feed, a cycle whose window ends at the same record as the one before, however paged or interrupted, stores the same token, and its pages are exactly the converted records at the token's StartAt, in order |
| Counterexamples.ExpiryHidesRole | pkg/connector/audit_event_feed.go:467-478 | A run after which a role the user permanently holds is not in the view |
| Counterexamples.RemovalLeavesRole | pkg/connector/audit_event_feed.go:255-263 | A run after which a role the user no longer holds is in the view |
| FeedSimulation.RunSimulated | pkg/connector/audit_event_feed.go:122-196 | Every possible run of tokens, records and calls is a legal run of the protocol that ends in the corresponding state |
| FeedSimulation.CallOutcome | pkg/connector/usage_event_feed.go:41-103 | A call on a stored token returns the protocol page's events and the text of the protocol's next cursor, or fails with the search, or with the first failing lookup of its page |
| ProtocolProofs.RunInv | pkg/connector/event_pagination.go:73-92 | The protocol's invariant holds in every state of every legal run: cursor, running cycle, deliveries, view and the chain of finished cycles |
| ProtocolTheorems.NoLoss | pkg/connector/event_pagination.go:75-92 | A record since the origin whose events were not all delivered is not before StartAt, the current position or the furthest delivery |
| ProtocolTheorems.NothingInvented | pkg/connector/audit_event_feed.go:162-179 | Every delivered event belongs to a record at or after the origin |
| ProtocolTheorems.LatestIsCycleMaximum | pkg/connector/event_pagination.go:75-83 | In every reachable state LatestEventSeen is the maximum of StartAt and the times the converter returned for the records the cycle covered; a record without a returned time never moves it |
| ProtocolTheorems.StartNeverDecreases | pkg/connector/event_pagination.go:85-92 | StartAt never decreases over a run, and stays put until a last page is stored |
| ProtocolTheorems.CompletedCycleViewIsOnePass | pkg/connector/audit_event_feed.go:181-195 | A stored last page makes the view one pass over everything the clock has reached |
| ProtocolTheorems.CompletedCycleFromOrigin | pkg/connector/audit_event_feed.go:162-195 | Without a full sync in the run, that pass goes from the initial start over the initial view |
| ProtocolTheorems.CompletedCycleDeliveredAll | pkg/connector/audit_event_feed.go:181-195 | At a completed cycle the delivered events are exactly those of the records from the origin to the clock |
| ProtocolTheorems.CycleIsWholeWindow | pkg/connector/audit_event_feed.go:134-185 | The pages of a cycle concatenate to the conversion of its whole window in log order, and StartAt moves to the window's latest time |
| ProtocolTheorems.PagesDoNotMatter | pkg/connector/audit_event_feed.go:142-152 | Two runs on different servers, paged, interrupted and fed in any way, that finish a cycle over the same log from the same StartAt have emitted the same cycle and hold the same cursor |
| ProtocolTheorems.PageSizeIndependence | pkg/connector/usage_event_feed.go:59-101 | Two whole histories over one log whose cycles end at the same places agree on every cycle's events and every StartAt |
| Repeats.DuplicatesExactly | pkg/connector/event_pagination.go:88-92 | Of the records with a returned time that a finished cycle covered, a later finished cycle covers again exactly those whose time is its StartAt |
| Repeats.DeliveredTwice | pkg/connector/event_pagination.go:85-92 | A run of two answered calls that delivers one record in both |
| ProtocolTheorems.Quiescence | pkg/connector/usage_event_feed.go:53-101 | A cycle that finds nothing new keeps StartAt and emits exactly the converted records at StartAt, in order |
| ProtocolTheorems.CycleTerminates | pkg/connector/audit_event_feed.go:181-195 | The pages that ask for more before a cycle ends are at most the log still ahead plus the appends |
| ExactlyOnce.ExactlyOnceAfterDedup | pkg/connector/audit_event_feed.go:162-179 | Over every run, dropping repeated ids leaves the converted log from the origin to the furthest delivery, in order |
| Events.ReplayAbsorbed | pkg/connector/audit_event_feed.go:162-195 | Replaying a prefix or a suffix of what is applied changes no view |
| Events.ApplyByLastChange | pkg/connector/audit_event_feed.go:333-363 | The folded view holds a pair exactly when the last event about it is a grant, or there is none and it was there before |
| Divergence.MissingFromView | pkg/connector/audit_event_feed.go:454-481 | A role truly held is missing from a caught-up view exactly when, in the replayed stretch, its request expired and nothing gave it again |
| Divergence.ExtraInView | pkg/connector/audit_event_feed.go:250-263 | A role not held is in a caught-up view exactly when it was given and not revoked since, or was held at the sync and nothing spoke of it |
| Divergence.ConversionSays | pkg/connector/audit_event_feed.go:210-243 | What a record's events do to a pair is what the record means for it, removals and deletions excepted |
| EventIds.IdsIdentifyEvents | pkg/connector/audit_event_feed.go:278-283 | Event ids are pairwise distinct over the whole converted log |
| EventIds.GrantIdsExactly | pkg/connector/audit_event_feed.go:460-465 | The ids of one record's grants are distinct if and only if no non-empty role is named twice |
| RecordEvents.RecordTells | pkg/connector/audit_event_feed.go:397-492 | A record's events are exactly those its kind, names, request and state call for, with their ids, times, users and roles |
| RecordEvents.GrantsInOrder | pkg/connector/audit_event_feed.go:274-285 | One grant for each non-empty role, in role order |
| RecordEvents.RevokesInOrder | pkg/connector/audit_event_feed.go:467-478 | One revoke for each non-empty role, in role order |
| RecordEvents.UserEventsInOrder | pkg/connector/audit_event_feed.go:268-286 | A user record's events are its resource change first and then one grant per non-empty role, in role order |
| FeedRefinement.FlakyPage | pkg/connector/audit_event_feed.go:168-170 | A page converts as if no lookup failed, record for record, or fails as a whole, exactly when one of its lookups fails and naming the request of the first |
| FeedRefinement.MatchingConverted | pkg/connector/audit_event_feed.go:100-105 | Filtering by event type and converting a page gives the events and the latest time of the stretch of log behind it |
| FeedRefinement.UpdatesAreLatest | pkg/connector/event_pagination.go:79-82 | Updating the cursor text with a sequence of times gives the text of their maximum |
| FeedRefinement.StoredTokenOpens | pkg/connector/event_pagination.go:34-61 | A stored token opens to the cursor it was made from, whatever the default start and the clock |
| AuditFeed.ListEvents | pkg/connector/audit_event_feed.go:122-196 | The page step as it runs equals the specification the theorems are about, errors included |
| AuditFeed.ConvertPage | pkg/connector/audit_event_feed.go:162-179 | The loop delivers every record's events in order and updates the cursor with every returned time, or stops at the first failed lookup |
| AuditFeed.TryConvertAccessRequestStateChange | pkg/connector/audit_event_feed.go:397-492 | State changes are resolved, skipped (also when there is no client) or refused; everything else falls through |
| UsageFeed.ListEvents | pkg/connector/usage_event_feed.go:41-103 | The usage feed's page step equals its specification |
| UsageFeed.ConvertPage | pkg/connector/usage_event_feed.go:79-86 | Failed logins update the cursor without an event |
| EventPagination.CursorRoundTrip | pkg/connector/event_pagination.go:34-71 | Unmarshal after marshal gives the cursor back, with only empty fields refilled; with a StartAt neither default nor clock matters |
| EventPagination.TextDecodes | pkg/connector/event_pagination.go:65-71 | Base64 over UTF-8 over JSON with omitted empty fields decodes to the same cursor, for all field contents |
| CursorText.CursorJson | pkg/connector/event_pagination.go:16-30 | A token is the base64 of the JSON object of its non-empty fields under their names, spelled out, when no character needs escaping |
| CursorText.BadTokens | pkg/connector/event_pagination.go:36-44 | A non-empty token that is not base64, or whose text is no JSON object, is refused for that reason, never taken for a blank cursor |
| CursorText.BadStart | pkg/connector/audit_event_feed.go:134-137 | A cursor whose start_at is no timestamp opens no search |
| CursorText.LastMemberDecides | pkg/connector/event_pagination.go:41 | Of members that repeat a name the last decides; null and unknown names change nothing |
| EventPagination.UnmarshalEventPageCursor | pkg/connector/event_pagination.go:34-61 | A new cursor object holding the decoded and refilled fields, or the decoding error; without a token its StartAt reads as the default start or 24 hours ago |
| EventPagination.EventPageCursor.FillMissing | pkg/connector/event_pagination.go:46-58 | Only empty fields change: StartAt to a text that reads as the default start or 24 hours ago, then LatestEventSeen to StartAt |
| EventPagination.EventPageCursor.UpdateLatestEvent | pkg/connector/event_pagination.go:75-83 | LatestEventSeen moves only forward in time or away from an unreadable text, never for a zero time, and nothing else changes |
| EventPagination.EventPageCursor.PrepareNextSync | pkg/connector/event_pagination.go:88-92 | The next cycle starts at the latest time seen with nothing else carried over |
| Timestamps.TextRoundTrip | pkg/connector/event_pagination.go:53 | Parsing the RFC 3339 text of an instant gives it back if and only if its year is 0 to 9999 |
| CivilTime.ParseReads | pkg/connector/audit_event_feed.go:134 | A timestamp text is the instant its digits say: the civil day by a closed formula, time of day, fraction and offset, for every text of the format with its fields in range |
| CivilTime.ParseRefuses | pkg/connector/audit_event_feed.go:134-137 | ... and is refused if month, day by the month table, hour, minute, second or offset is out of range |
| CivilTime.OnlyTimestampsParse | pkg/connector/audit_event_feed.go:134-137 | Nothing else parses |
| CivilTime.FormatWrites | pkg/connector/event_pagination.go:81 | The text of a time shows its civil date, its time of day, and its fraction to the last digit that is not zero |
| CivilTime.DayNumberIsCivil | pkg/connector/event_pagination.go:53 | The calendar's day numbers are the closed formula's |
| CivilTime.Landmarks | pkg/connector/event_pagination.go:76-78 | The zero time that is ignored is 0001-01-01T00:00:00Z |
| Timestamps.TextOrderDisagrees | pkg/connector/event_pagination.go:79-81 | A later time within a whole second has the earlier text, so times must be compared parsed |
| Base64.EncodeDecodes | pkg/connector/event_pagination.go:70 | Standard base64 decodes what it encoded |
| Base64.EncodeSpells | pkg/connector/event_pagination.go:70 | Four letters carry the bits of three bytes, with zero bits and '=' for padding |
| Base64.OnlyBase64Decodes | pkg/connector/event_pagination.go:37-40 | A text decodes if and only if, line breaks apart, it is groups of four letters with at most two '=' at the end |
| Utf8.EncodeDecodes | pkg/connector/event_pagination.go:66 | UTF-8 decodes what it encoded |
| JsonText.ObjectReads | pkg/connector/event_pagination.go:41 | A written object reads back member for member, escapes included |
| JsonText.EscapesWritten | pkg/connector/event_pagination.go:66 | Which characters are escaped, and how |
| RoleHistory.MembershipHistory | pkg/connector/roles.go:144-233 | After any history of grants and revokes a user holds a role exactly when the last successful call about the two granted it, or none did and it was held before; other users are untouched |
| RoleHistory.RevokeKeepsTheRest | pkg/connector/roles.go:206-214 | Revoke drops every occurrence of the role and keeps every other role, once, in first-occurrence order |
| RoleLists.AttemptErrors | pkg/connector/roles.go:144-182 | Which error a grant or revoke ends with, cause by cause in the order they are found |
| RoleLists.GrantEffect | pkg/connector/roles.go:175-176 | A grant appends the role only if it was absent, leaves every other role as often as before, and loses no login |
| RoleLists.AttemptAgain | pkg/connector/roles.go:176-177 | Granting again changes nothing |
| RoleLists.RevokeEffect | pkg/connector/roles.go:205-215 | A revoke drops the role, keeps the rest once in order, and loses no login |
| RoleLists.GrantsAtMostOnce | pkg/connector/roles.go:117-142 | Where role lists repeat nothing, Grants answers each pair at most once after any history |
| RoleHistory.GrantsAfterHistory | pkg/connector/roles.go:117-142 | Grants over a fresh snapshot shows a pair exactly when the history left it granted |
| RoleHistory.FullSyncConserves | pkg/connector/roles.go:117-142 | Over distinct listed roles a sync emits each membership of its snapshot as often as it occurs there, for listed roles, and nothing else |
| RoleHistory.FullSyncComplete | pkg/connector/roles.go:69-90 | A sync shows exactly who holds what if and only if every role held is listed |
| RoleHistory.OneSnapshot | pkg/connector/roles.go:50-62 | Between Lists every Grants that sees a user answers from one snapshot, whatever changes or fails meanwhile, building a resource included; those before it saw no user and answered nothing |
| RoleHistory.SyncConserves | pkg/connector/roles.go:50-142 | The grants answered between two Lists conserve the memberships of that snapshot |
| RoleHistory.GrantsAnswers | pkg/connector/roles.go:50-62 | Grants answers if and only if there is a cache or the server can be read, and every user in play builds; then with each membership of the role as often as it occurs |
| RoleHistory.WorkingSync | pkg/connector/roles.go:50-142 | In a sync where nothing fails every role asked about is answered, with the memberships of the users the first Grants read, whatever changes meanwhile |
| RoleHistory.AttemptKeepsTruth | pkg/connector/audit_event_feed.go:205-223 | A grant or revoke keeps the server's relation equal to the fold of the audit log |
| RoleHistory.SyncShowsTruth | pkg/connector/roles.go:117-142 | A full sync leaves the consumer with the truth of the log if and only if every role held is listed |
| Roles.RoleBuilder.GetUsers | pkg/connector/roles.go:50-62 | A non-empty cache answers without the server; otherwise the server's users are returned and cached |
| Roles.RoleBuilder.List | pkg/connector/roles.go:66-88 | The cache is dropped exactly when the roles could be read and every role's resource built |
| Roles.RoleBuilder.Grants | pkg/connector/roles.go:117-142 | Answers if and only if there is a cache or a readable server and every user builds; the answer is the memberships of the role in user order; the users stay cached either way |
| Roles.RoleBuilder.Grant | pkg/connector/roles.go:144-191 | Either an error and no change, or the role added for that user alone |
| Roles.RoleBuilder.Revoke | pkg/connector/roles.go:193-233 | Either an error and no change, or the role removed for that user alone |

## Left out

- Timestamps.Parse: does not accept the one-digit hours that Go's parser tolerates; no stored cursor has them.
- JsonText.ReadObject: reads members that are strings or null only, so a hand-made cursor with other values under unknown names, or a bare `null`, is refused where Go accepts it; member names are matched exactly, not up to letter case.
- Utf8.EncodeDecodes: speaks of Unicode text only; a Go string with invalid UTF-8 would be marshalled with replacement characters.
- Roles.RoleBuilder.Grant: the races between reading and updating a user, and the server's own checks of the update, are one atomic step that succeeds or fails as a whole; so too for Revoke.
- Whether a role's or user's resource can be built (profiles, traits) is a parameter of List and Grants.
- EndToEnd.CompletedCycleView: a full sync is one atomic step that sees the truth of the log; that a real one, call by call over one snapshot, shows that truth is `SyncShowsTruth`.
- EndToEnd.CompletedCycleExactlyOnce: ids are compared within one feed, not across feeds.
- Records appended out of time order: the feed does not promise to deliver them.
- A feed called without an earliest event: it starts a day before each call until a cursor is stored.
- The gRPC client, credentials, connection setup, `Ping`, `Close` and logging: I/O.
- Protobuf envelopes, display names, descriptions and traits: events are reduced to id, time, kind, user and role or cluster.
- Apps, databases, nodes, resource types, capabilities, configuration: straight mappings without state.
- Account creation and deletion: easy string facts only.
- The drivers under cmd/ and scripts/: not part of the protocol.
