/**
 The bottom navigation bar: which items a role sees and which item is
 highlighted for the current path.
 */
module Navigation {
  import opened Options
  import opened Strings

  /** One link of the bar. */
  datatype NavItem = NavItem(href: string, caption: string)

  const Accueil: NavItem := NavItem("/", "Accueil")
  const CabineItem: NavItem := NavItem("/cabine", "Cabine")
  const FormationItem: NavItem := NavItem("/formation", "Formation")
  const ManagerItem: NavItem := NavItem("/manager", "Manager")
  const Profil: NavItem := NavItem("/profil", "Profil")

  /** The role the bar is drawn for; an absent role is an assistant's. */
  function EffectiveRole(role: Option<string>): string {
    role.GetOr("ASSISTANT")
  }

  /** Managers and administrators see the management dashboard. */
  predicate SeesManager(role: Option<string>) {
    EffectiveRole(role) == "MANAGER" || EffectiveRole(role) == "ADMIN"
  }

  /** `navItems`: home, cabin, training, the dashboard for managers, then the profile. */
  function NavItems(role: Option<string>): (r: seq<NavItem>)
    ensures |r| == (if SeesManager(role) then 5 else 4)
    ensures ManagerItem in r <==> SeesManager(role)
    ensures r[0] == Accueil && r[1] == CabineItem && r[2] == FormationItem && r[|r| - 1] == Profil
    ensures forall i, j :: 0 <= i < j < |r| ==> r[i].href != r[j].href
  {
    [Accueil, CabineItem, FormationItem] + (if SeesManager(role) then [ManagerItem] else []) + [Profil]
  }

  /** Without a role, the bar is the assistant's: no dashboard. */
  lemma DefaultRoleIsAssistant()
    ensures NavItems(None) == NavItems(Some("ASSISTANT"))
    ensures |NavItems(None)| == 4
  {
  }

  /** `isActive`: the exact path, or, for every item but home, any path that starts with its link. */
  predicate IsActive(pathname: string, href: string) {
    pathname == href || (href != "/" && StartsWith(pathname, href))
  }

  /** Home is highlighted on the home page only. */
  lemma RootOnlyExact(pathname: string)
    ensures IsActive(pathname, "/") <==> pathname == "/"
  {
  }

  /** The prefix test is on characters, not path segments: `/cabinex` highlights Cabine. */
  lemma NonSegmentPrefix()
    ensures IsActive("/cabinex", "/cabine")
  {
    assert "/cabinex"[..|"/cabine"|] == "/cabine";
  }

  /** No link of the bar is a prefix of another, so no path highlights two items. */
  lemma AtMostOneActive(role: Option<string>, pathname: string)
    ensures forall i, j :: 0 <= i < j < |NavItems(role)| ==>
      !(IsActive(pathname, NavItems(role)[i].href) && IsActive(pathname, NavItems(role)[j].href))
  {
    var r := NavItems(role);
    LinksDifferEarly(role);
    forall i, j | 0 <= i < j < |r|
      ensures !(IsActive(pathname, r[i].href) && IsActive(pathname, r[j].href))
    {
      if i == 0 {
        RootAndLink(pathname, r[j].href);
      } else {
        NotBothActive(pathname, r[i].href, r[j].href);
      }
    }
  }

  /** Home is the first link; every other link has a second character, and no two of them share it. */
  lemma LinksDifferEarly(role: Option<string>)
    ensures NavItems(role)[0].href == "/"
    ensures forall i :: 0 < i < |NavItems(role)| ==> |NavItems(role)[i].href| >= 2 && NavItems(role)[i].href[0] == '/'
    ensures forall i, j :: 0 < i < j < |NavItems(role)| ==> NavItems(role)[i].href[1] != NavItems(role)[j].href[1]
  {
  }

  /** A path that highlights home is `/`, which is too short to start with a longer link. */
  lemma RootAndLink(pathname: string, b: string)
    requires |b| >= 2
    ensures !(IsActive(pathname, "/") && IsActive(pathname, b))
  {
  }

  /** Two links that differ at their second character are never highlighted together. */
  lemma NotBothActive(pathname: string, a: string, b: string)
    requires |a| >= 2 && |b| >= 2 && a[1] != b[1]
    ensures !(IsActive(pathname, a) && IsActive(pathname, b))
  {
    if IsActive(pathname, a) {
      assert pathname[1] == a[1];
    }
  }

  /** On the solution builder page only Cabine is highlighted, whatever the role. */
  lemma BuilderHighlightsCabine(role: Option<string>)
    ensures forall item :: item in NavItems(role) ==> (IsActive("/cabine/solutions/creer", item.href) <==> item == CabineItem)
  {
    var p := "/cabine/solutions/creer";
    assert p[..|"/cabine"|] == "/cabine";
    DifferAt(p, "/formation", 1);
    DifferAt(p, "/manager", 1);
    DifferAt(p, "/profil", 1);
  }
}
