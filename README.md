# Jira reader: reconciliation of assignments with Jira comments

This project models, in Dafny, the core of a small Go service that reads
ticket assignments from an assignment service ("Sayori") and the comments of
those tickets from Jira, and reports for every assigned user the latest
comment they left on each of their Jira tickets.

The model covers:

- `Sayori.SayoriClient.FindTicket` (`sayori.dfy`): linear search of the
  assignment records for a ticket id, specified by the recursive
  `FirstIndexWithId`.
- `Jira.JiraClient.GetCommentsByUser` and `Jira.JiraClient.GetLastCommentByUser`
  (`jira.dfy`): the two readings of a ticket's comment list. The first filters
  comment bodies by the author's display name. The second keeps the latest
  comment by the author's account name. Each loop is proved against a
  specification function (`CommentsBy`, `LatestIndex`). Those functions are in
  turn characterised by lemmas that do not mention the scan (`IsLatest`:
  latest in time, first in list order on ties).
- `TicketService.GetCommentsByUser` (`ticket_service.dfy`): grouping by
  display name, the first-seen bot user id per display name, the
  `https://jira.` link filter, the per-ticket skip on failure, and the result
  assembly that drops empty entries. The method is proved equal to the
  function `Reconcile`. Lemmas say what `Reconcile` means: every entry comes
  from a record of that user with a Jira link and holds that user's latest
  comment; every record that yields a comment is present whatever happens to
  the others; a user without comments is absent. The fetches made are exactly
  the admitted records, as a multiset, because users are visited in
  unspecified order.
- `TicketService.GetCommentsByDisplayName`, the single-ticket path, and the
  storage sort key `"#TICKET#" + ticketId` of `PutItemInDynamo`.
- `scenarios.dfy`: the end-to-end, partial-failure and tie examples as lemmas.

The network is replaced by stand-ins. `SayoriClient.answer` is the outcome of
the request for all assignments. `JiraClient.server` maps a ticket id to the
ticket Jira returns; an id that is not a key stands for a failed request.
`JiraClient.requested` records the ids requested, so the model can state
which tickets are fetched. `DynamoDBClient` records the items written.
Timestamps are integers.

Where the code and its design notes differ, the model follows the code:

- The last-comment lookup compares the author's account name (`Author.Name`)
  with the user's display name. The comment filter of the single-ticket path
  compares `Author.DisplayName`. Both are modelled as written.
- `internal/models/jira.go` declares the comment list inside a wrapper object
  (`Fields.Comments.Comments`). The client code ranges over `Fields.Comments`
  directly. The model uses the wrapper's list.
- `cmd/main.go` takes two results from `GetCommentsByUser`, but the service
  returns three. The model follows the service: result, bot-id index, error.
- A matching comment whose body is empty reads as "no comment": the lookup
  returns "" for it and the service does not store it. So "" does not imply
  that the user wrote nothing.

## Model

| member | source | states |
|---|---|---|
| `Sayori.FirstIndexWithId` | internal/clients/sayori.go:69-75 | the index found holds a record with the requested id and no earlier record has it; None only when no record has the id |
| `Sayori.SayoriClient.FindTicket` | internal/clients/sayori.go:66-76 | succeeds iff some record has the id; on success returns the first such record in list order; otherwise the "ticket with ID … not found" error |
| `Sayori.SayoriClient.GetTickets` | internal/clients/sayori.go:33-63 | stand-in for the HTTP request: returns the service's fixed answer, a record list or an error |
| `Jira.CommentsBy` | internal/clients/jira.go:78-88 | the filtered body list is never longer than the comment list |
| `Jira.CommentsByAppend` | internal/clients/jira.go:80-84 | filtering distributes over concatenation, so kept bodies stay in their original order |
| `Jira.CommentsByMembership` | internal/clients/jira.go:80-84 | a body is in the result iff some comment whose author's display name matches carries it |
| `Jira.LatestIndex` | internal/clients/jira.go:97-104 | the comment the scan keeps is one whose author's account name matches |
| `Jira.LatestIndexIsLatest` | internal/clients/jira.go:97-109 | the scan keeps nothing iff no comment has a matching account name; otherwise it keeps a comment no later matching comment beats, and every earlier matching comment is strictly older (strict "after": first wins on ties) |
| `Jira.LatestIndexCharacterised` | internal/clients/jira.go:97-104 | the kept index is exactly the unique index that is latest with first-on-tie, both directions |
| `Jira.LastCommentBodyMeaning` | internal/clients/jira.go:106-112 | "" when no comment has a matching account name; otherwise the body of the latest matching comment |
| `Jira.JiraClient.GetTicket` | internal/clients/jira.go:35-72 | stand-in for the HTTP request: records the requested id and returns the server's ticket or a fetch error |
| `Jira.JiraClient.GetCommentsByUser` | internal/clients/jira.go:75-89 | never fails; returns exactly the bodies of comments whose author's display name matches, in order, and a body is returned iff such a comment carries it |
| `Jira.JiraClient.GetLastCommentByUser` | internal/clients/jira.go:92-113 | never fails; returns "" when no comment has a matching account name, otherwise the body of the latest matching comment, the first one on ties |
| `TicketService.IsJiraLinkIsPrefix` | internal/service/ticket_service.go:115-118 | the link guard admits exactly links that start with "https://jira."; a link shorter than 13 characters is rejected |
| `TicketService.TicketsOf` | internal/service/ticket_service.go:89-96 | a user's group is never longer than the input |
| `TicketService.TicketsOfMembership` | internal/service/ticket_service.go:89-96 | a record is in the group of display name d iff it is an input record with display name d, so each record is in exactly its own group |
| `TicketService.TicketsOfAppend` | internal/service/ticket_service.go:89-96 | grouping distributes over concatenation, so each group keeps the input's relative order |
| `TicketService.GroupTickets` | internal/service/ticket_service.go:87-96 | both maps have exactly the input's display names as keys; each group is that user's records in input order; the bot id of a display name is that of its first record, later duplicates do not overwrite it |
| `TicketService.ResolveCharacterised` | internal/service/ticket_service.go:111-139 | a user's ticket map has as keys exactly the ids of records with a Jira link, a successful fetch and a non-empty last comment, and maps each to that non-empty last comment |
| `TicketService.FailureIsolated` | internal/service/ticket_service.go:115-127 | removing a record whose link is rejected or whose fetch fails leaves the user's ticket map unchanged |
| `TicketService.AdmittedIdsMembership` | internal/service/ticket_service.go:115-123 | an id is fetched iff some record with that id has a Jira link; rejected links are never fetched |
| `TicketService.LastCommentsOfUser` | internal/service/ticket_service.go:111-139 | the inner loop builds the user's ticket map of ResolveCharacterised and requests exactly the admitted ids, in order |
| `TicketService.ResultFor` | internal/service/ticket_service.go:141-143 | only the users asked for appear, and no user maps to an empty ticket map |
| `TicketService.ReconcileSound` | internal/service/ticket_service.go:109-143 | each entry comes from an input record of that user with a Jira link and a fetched ticket, and holds the non-empty body of that user's latest comment, first on ties |
| `TicketService.ReconcileComplete` | internal/service/ticket_service.go:109-143 | every record that yields a comment is in the result, whatever happens to the user's other records |
| `TicketService.ReconcileOmitsSilentUsers` | internal/service/ticket_service.go:141-143 | a user none of whose records yields a comment is not a key of the result |
| `TicketService.GetCommentsByUser` | internal/service/ticket_service.go:77-147 | on a failed assignment fetch: an error, empty maps and no Jira request; otherwise no error, the result equals Reconcile, the bot-id index keeps the first-seen id per display name, and the Jira requests are exactly the admitted records, as a multiset |
| `TicketService.GetCommentsByDisplayName` | internal/service/ticket_service.go:57-73 | requests the ticket once; an error and no comments when the fetch fails, otherwise the display-name-filtered bodies |
| `TicketService.TicketSortKey` | internal/service/ticket_service.go:160 | the key starts with "#TICKET#" and is 8 characters longer than the id |
| `TicketService.TicketSortKeyRoundTrip` | internal/service/ticket_service.go:160 | stripping "#TICKET#" from the key gives back the ticket id |
| `TicketService.TicketSortKeyInjective` | internal/service/ticket_service.go:160 | distinct ticket ids get distinct sort keys |
| `TicketService.PutItemInDynamo` | internal/service/ticket_service.go:158-166 | writes one item keyed by the bot user id and "#TICKET#" + ticket id, or returns the store's error wrapped |
| `Dynamo.DynamoDBClient.PutTicketCommentsInDynammo` | internal/clients/dynamodb.go:110-135 | stand-in for the write: appends the item, or leaves the store unchanged and returns the wrapped error |
| `Scenarios.TieGoesToFirstComment` | internal/clients/jira.go:99-100 | of two equally late comments the first is returned; a comment matching only by display name is ignored |
| `Scenarios.EndToEnd` | internal/service/ticket_service.go:109-143 | a Jira ticket with two of Alice's comments and one of Bob's, plus a non-Jira ticket: only the Jira ticket is fetched and the result is Alice's later comment on it |
| `Scenarios.PartialFailure` | internal/service/ticket_service.go:123-127 | when the first of two admitted tickets fails to fetch, the second still yields its comment |

## Left out

- HTTP and JSON: `SayoriClient.GetTickets` and `JiraClient.GetTicket` build requests, check status codes and decode bodies. The model replaces them with fixed answers. Their several error messages become one message per client.
- Jira answers are a fixed map, so two requests for the same ticket id get the same answer. A live server could answer them differently.
- Timestamp parsing: the multi-format `CustomTime` parser is not part of this model. Timestamps are integers, so only their order is modelled.
- DynamoDB: client configuration, table creation, attribute marshalling and the `time.Now()` RFC 3339 timestamps written with each item are not modelled. Only the pk/sk/comment triple is stored.
- Service setup: `NewTicketService`, `getEnvOrDefault`, `NewSayoriClient` and `NewJiraClient` read environment variables and configure HTTP clients. The model's clients are built from their answers directly.
- `cmd/main.go` only prints the result.
- Logging, including the loop at internal/service/ticket_service.go:98-104 that only logs the groups.
- Map iteration order: users are visited in an unspecified order, chosen with `:|`. Only map contents are specified, and the Jira requests are specified as a multiset.
- Nil versus empty: Go's nil maps and slices are modelled as empty ones.
- Go strings are byte strings and links are modelled as character sequences. The guard compares against an ASCII prefix, so the two readings agree.
- The floating-point `Estimate` field and the other record fields that the logic never reads are carried but not used. `Estimate` is not modelled.
