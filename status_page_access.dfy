/** Who may open a status page. isPermitted builds a resolver that decides
    the question (a public page is open to everyone; a private page only to
    a logged-in member of its project) but hands back the resolver itself
    instead of its answer, and getStatusPage tests the returned value for
    truthiness. The as-written pair shows that every page is then admitted;
    the corrected pair applies the predicate. */
module StatusPageAccess {
  import opened Wrappers
  import opened StatusPageModel

  /** The project the page belongs to, as the project lookup returns it:
      its id ("" when absent) and the user ids of its members. */
  datatype Project = Project(id: string, users: seq<string>)

  /** A logged-in user (a non-empty id) listed among the users of a project
      that was found and has an id. */
  predicate IsMember(userId: string, project: Option<Project>)
  {
    userId != "" && project.Some? && project.value.id != "" && userId in project.value.users
  }

  /** The value the resolver inside isPermitted resolves with. */
  function Resolves(isPrivate: bool, userId: string, project: Option<Project>): (permitted: bool)
    ensures !isPrivate ==> permitted
    ensures isPrivate ==> (permitted <==> IsMember(userId, project))
  {
    if isPrivate then
      if userId != "" then
        if project.Some? && project.value.id != "" then
          exists k :: 0 <= k < |project.value.users| && project.value.users[k] == userId
        else false
      else false
    else true
  }

  /** What `await isPermitted(…)` yields: a boolean, or a function. */
  datatype Awaited = Answer(value: bool) | Resolver

  /** JavaScript truthiness of the awaited value: a function is truthy. */
  predicate Truthy(a: Awaited)
  {
    match a
    case Answer(v) => v
    case Resolver => true
  }

  /** isPermitted as written: the resolver itself is returned, and awaiting
      a function yields the function, which is truthy whatever the page and
      the visitor. */
  function IsPermittedAsWritten(isPrivate: bool, userId: string, project: Option<Project>): (a: Awaited)
    ensures Truthy(a)
  {
    Resolver
  }

  /** The check in getStatusPage over isPermitted as written: it never
      rejects. */
  function AccessCheckAsWritten(isPrivate: bool, userId: string, project: Option<Project>): (r: Result<(), ServiceError>)
    ensures r == Ok(())
  {
    if !Truthy(IsPermittedAsWritten(isPrivate, userId, project)) then Err(Unauthorized) else Ok(())
  }

  /** A private page is opened by a visitor who is not logged in. */
  lemma PrivatePageAdmitsAnonymous(project: Project)
    ensures !Resolves(true, "", Some(project))
    ensures AccessCheckAsWritten(true, "", Some(project)) == Ok(())
  {
  }

  /** isPermitted as evidently intended: the resolver's answer. */
  function IsPermitted(isPrivate: bool, userId: string, project: Option<Project>): (a: Awaited)
    ensures Truthy(a) <==> Resolves(isPrivate, userId, project)
  {
    Answer(Resolves(isPrivate, userId, project))
  }

  /** The check in getStatusPage over the corrected isPermitted: a public
      page is always opened; a private page is rejected as unauthorized
      unless a logged-in member of its project asks. */
  function AccessCheck(isPrivate: bool, userId: string, project: Option<Project>): (r: Result<(), ServiceError>)
    ensures r.Err? <==> isPrivate && !IsMember(userId, project)
    ensures r.Err? ==> r.error == Unauthorized
    ensures r.Err? ==> ErrorMessage(r.error) == "You are unauthorized to access the page please login to continue."
  {
    if !Truthy(IsPermitted(isPrivate, userId, project)) then Err(Unauthorized) else Ok(())
  }

  /** The two checks agree exactly on the visitors the predicate admits. */
  lemma AccessChecksAgree(isPrivate: bool, userId: string, project: Option<Project>)
    ensures AccessCheck(isPrivate, userId, project) == AccessCheckAsWritten(isPrivate, userId, project)
      <==> Resolves(isPrivate, userId, project)
  {
  }
}
