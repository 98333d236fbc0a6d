/** Audit log records and the Teleport calls the feeds make. */
module AuditRecords {
  import opened Wrappers
  import opened Events

  /** The payloads the connector looks at; `Other` stands for every other event type. */
  datatype Body =
    | UserCreate(name: string, roles: seq<string>)
    | UserUpdate(name: string, roles: seq<string>)
    | UserDelete(name: string)
    | RoleCreate(name: string)
    | RoleUpdate(name: string)
    | LockCreate(targetUser: string)
    | LockDelete(targetUser: string)
    | AccessRequest(user: string, requestId: string, requestState: string)
    | UserLogin(user: string, success: bool, clusterName: string)
    | Other

  datatype AuditRecord = AuditRecord(id: string, time: Instant, eventType: string, body: Body)

  /** The type a record carries in the log is the one of its payload, for the kinds the feeds ask for. */
  predicate Typed(r: AuditRecord) {
    match r.body
    case UserCreate(_, _) => r.eventType == "user.create"
    case UserUpdate(_, _) => r.eventType == "user.update"
    case RoleCreate(_) => r.eventType == "role.created"
    case RoleUpdate(_) => r.eventType == "role.updated"
    case LockCreate(_) => r.eventType == "lock.created"
    case LockDelete(_) => r.eventType == "lock.deleted"
    case AccessRequest(user, _, _) =>
      user == "" ==>
        || r.eventType == "access_request.review"
        || r.eventType == "access_request.update"
        || r.eventType == "access_request.expire"
    case UserLogin(_, _, _) => r.eventType == "user.login"
    case _ => true
  }

  datatype SearchRequest = SearchRequest(from: Instant, to: Instant, eventTypes: seq<string>, limit: nat,
    startKey: string)

  datatype SearchPage = SearchPage(records: seq<AuditRecord>, lastKey: string)

  /** GetAccessRequests by ID: an error, no request, or the first one found. */
  datatype Lookup = LookupError | NotFound | Request(user: string, roles: seq<string>)

  /** The server as one call sees it; a failed search answers None. */
  datatype Client = Client(search: SearchRequest -> Option<SearchPage>, lookup: string -> Lookup)

  const EVENTS_PAGE_SIZE := 100
}
