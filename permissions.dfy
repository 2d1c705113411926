/**
 * The author-only access check that guards the author endpoints. A request
 * carries either the anonymous user or an authenticated stored user.
 */
module Permissions {
  import opened Results
  import opened Models

  /** `request.user`: the anonymous user, or a stored user with its primary key. */
  datatype Requester = Anonymous | Authenticated(id: UserId, user: User)

  /**
   * `AuthorAccessPermission.has_permission`. The branch chain has no final
   * `else`, so an authenticated non-author falls off the end: `None`.
   */
  function HasPermission(req: Requester): (verdict: Option<bool>)
    ensures verdict == Some(false) <==> req.Anonymous?
    ensures verdict == Some(true) <==> req.Authenticated? && req.user.isAuthor
    ensures verdict == None <==> req.Authenticated? && !req.user.isAuthor
  {
    if req.Anonymous? then Some(false)
    else if req.user.isAuthor then Some(true)
    else None
  }

  /** The framework denies on any falsy verdict, `False` and `None` alike. */
  predicate Grants(verdict: Option<bool>) {
    verdict == Some(true)
  }

  /** The request passes the author-only check exactly when it is authenticated and its user is an author. */
  lemma AuthorAccessTruthTable(req: Requester)
    ensures Grants(HasPermission(req)) <==> req.Authenticated? && req.user.isAuthor
    ensures req.Anonymous? ==> !Grants(HasPermission(req))
  {
  }

  /** The staff and superuser flags play no part: only the author flag decides. */
  lemma StaffAndSuperuserIgnored(id: UserId, u: User, staff: bool, superuser: bool)
    ensures Grants(HasPermission(Authenticated(id, u)))
        == Grants(HasPermission(Authenticated(id, u.(isStaff := staff, isSuperuser := superuser))))
  {
  }

  /** A superuser passes only because `create_superuser` also sets the author flag. */
  lemma SuperuserWithoutAuthorFlagDenied(id: UserId, u: User)
    requires u.isSuperuser && u.isStaff && !u.isAuthor
    ensures HasPermission(Authenticated(id, u)) == None
    ensures !Grants(HasPermission(Authenticated(id, u)))
  {
  }
}
