/** Who really holds which role: the fold of the complete audit log, deletions included. */
module Membership {
  import opened Events
  import opened AuditRecords

  function Without(view: View, user: string): View {
    set p | p in view && p.user != user
  }

  function Holding(user: string, roles: seq<string>): View {
    set r | r in roles :: Pair(user, r)
  }

  /** Create and update records carry the user's complete role list; a deletion takes it all away. */
  function AfterRecord(view: View, r: AuditRecord): View {
    match r.body
    case UserCreate(name, roles) => Without(view, name) + Holding(name, roles)
    case UserUpdate(name, roles) => Without(view, name) + Holding(name, roles)
    case UserDelete(name) => Without(view, name)
    case _ => view
  }

  function Truth(log: seq<AuditRecord>): View {
    if log == [] then {} else AfterRecord(Truth(log[..|log| - 1]), log[|log| - 1])
  }
}
