/** Read access to a norm's content and the administrator gate on the
    modification workflow, as the detail view and the list cards decide them. */
module Access {
  import opened Types

  /** Privilege tier of the acting subject; an absent user ranks lowest. */
  function Rank(user: Option<User>): nat {
    match user
    case None => 0
    case Some(u) =>
      match u.role
      case PUBLIC => 0
      case DIRECTIVO => 1
      case ADMIN => 2
  }

  /** `!norm.isConfidential || user?.role === ADMIN || user?.role === DIRECTIVO`,
      written identically in the detail view and in each list card. */
  predicate CanView(n: Norm, user: Option<User>) {
    !n.isConfidential
    || (user.Some? && user.value.role == ADMIN)
    || (user.Some? && user.value.role == DIRECTIVO)
  }

  /** `user?.role === ADMIN`: the administrator panel with the "apply
      modification" button is shown, whatever the norm. */
  predicate ShowsAdminPanel(user: Option<User>) {
    user.Some? && user.value.role == ADMIN
  }

  /** `isModalOpen && user && user.role === ADMIN`: the modification dialog is
      rendered, so its submit handler can run. */
  predicate ModalRendered(isModalOpen: bool, user: Option<User>) {
    isModalOpen && user.Some? && user.value.role == ADMIN
  }

  /** Read access in terms of privilege: public norms are open to everyone,
      confidential ones need at least the DIRECTIVO tier. */
  lemma CanViewByRank(n: Norm, user: Option<User>)
    ensures CanView(n, user) <==> (!n.isConfidential || Rank(user) >= 1)
  {
  }

  /** The full truth table of read access. */
  lemma CanViewTruthTable(n: Norm, user: Option<User>)
    ensures !n.isConfidential ==> CanView(n, user)
    ensures n.isConfidential && user.None? ==> !CanView(n, user)
    ensures n.isConfidential && user.Some? && user.value.role == PUBLIC ==> !CanView(n, user)
    ensures user.Some? && user.value.role in {ADMIN, DIRECTIVO} ==> CanView(n, user)
  {
  }

  /** The modification workflow is reachable exactly for a present ADMIN:
      DIRECTIVO, PUBLIC and anonymous users never reach it, and the gate
      does not look at confidentiality. */
  lemma ModifyGate(isModalOpen: bool, user: Option<User>)
    ensures ModalRendered(isModalOpen, user) ==> ShowsAdminPanel(user)
    ensures ShowsAdminPanel(user) <==> Rank(user) == 2
    ensures user.None? || user.value.role != ADMIN ==> !ModalRendered(isModalOpen, user)
  {
  }

  /** Whoever may modify a norm may also read it. */
  lemma ModifyImpliesView(n: Norm, user: Option<User>)
    ensures ShowsAdminPanel(user) ==> CanView(n, user)
  {
  }

  /** What a norm card in the list shows about access and currency. */
  datatype Card = Card(accessible: bool, badge: string, latest: Version)

  /** The card of `n` for `user`: the access flag and its label, and the
      version whose date is shown as the latest update. */
  function NormCard(n: Norm, user: Option<User>): (c: Card)
    requires |n.versions| > 0
    ensures c.accessible <==> CanView(n, user)
    ensures c.badge == "Accesible" <==> CanView(n, user)
    ensures c.badge == "Restringido" <==> !CanView(n, user)
    ensures c.latest == n.versions[|n.versions| - 1]
  {
    var canView := CanView(n, user);
    Card(canView, if canView then "Accesible" else "Restringido", LatestVersion(n))
  }
}
