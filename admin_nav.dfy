/**
 * The administration sidebar's navigation list, built by the `getDbModels`
 * server action from the table counts.
 */
module AdminNav {
  import opened Wrappers
  import opened Text

  datatype Variant = Default | Outline

  /** One navigation entry; `count` is absent for entries without a badge. */
  datatype NavItem = NavItem(title: string, href: string, icon: string, variant: Variant, count: Option<nat>)

  /** The user, session and account counts. */
  datatype Counts = Counts(users: nat, sessions: nat, accounts: nat)

  datatype NavResult = NavItems(items: seq<NavItem>) | NavFailure(error: string)

  const AdminHome := "/admin1208"
  const FetchError := "Une erreur est survenue lors de la récupération des données."
  const Titles: seq<string> := ["Dashboard", "Utilisateurs", "Sessions", "Comptes", "Paramètres"]

  /**
   * The `getDbModels` handler body, once the ADMIN role gate has let the call
   * through; `counts` is `None` when one of the count queries failed.
   */
  function GetDbModels(counts: Option<Counts>): (r: NavResult)
    ensures r.NavFailure? <==> counts.None?
    ensures r.NavFailure? ==> r.error == FetchError
    ensures r.NavItems? ==>
      var items := r.items;
      && |items| == 5
      && (forall i :: 0 <= i < 5 ==> items[i].title == Titles[i])
      && items[1].count == Some(counts.value.users)
      && items[2].count == Some(counts.value.sessions)
      && items[3].count == Some(counts.value.accounts)
      && items[0].count.None? && items[4].count.None?
      && (forall i :: 0 <= i < 5 ==> (items[i].variant == Default <==> i == 0))
  {
    match counts
    case None => NavFailure(FetchError)
    case Some(c) =>
      NavItems([
        NavItem("Dashboard", "/admin1208", "LayoutDashboard", Default, None),
        NavItem("Utilisateurs", "/admin1208/users", "Users", Outline, Some(c.users)),
        NavItem("Sessions", "/admin1208/sessions", "Key", Outline, Some(c.sessions)),
        NavItem("Comptes", "/admin1208/accounts", "CreditCard", Outline, Some(c.accounts)),
        NavItem("Paramètres", "/admin1208/settings", "Settings", Outline, None)
      ])
  }

  /** Every entry points into the administration area, and no two entries share a link. */
  lemma HrefsDistinctUnderAdmin(counts: Counts)
    ensures var items := GetDbModels(Some(counts)).items;
      && (forall i :: 0 <= i < |items| ==> StartsWith(items[i].href, AdminHome))
      && (forall i, j :: 0 <= i < j < |items| ==> items[i].href != items[j].href)
  {
    var items := GetDbModels(Some(counts)).items;
    forall i | 0 <= i < |items|
      ensures StartsWith(items[i].href, AdminHome)
    {
      assert items[i].href[..|AdminHome|] == AdminHome;
    }
    forall i, j | 0 <= i < j < |items|
      ensures items[i].href != items[j].href
    {
      if i == 0 {
        assert |items[i].href| != |items[j].href|;
      } else {
        var k := if i == 2 && j == 4 then 13 else 11;
        assert items[i].href[k] != items[j].href[k];
      }
    }
  }
}

/** The sidebar menu that renders the navigation list for the current pathname. */
module NavMainAdmin {
  import opened Wrappers
  import opened AdminNav

  datatype Icon = LayoutDashboardIcon | UsersIcon | KeyIcon | CreditCardIcon | SettingsIcon | DatabaseIcon

  /** `getIcon(iconName)`. */
  function GetIcon(name: string): (icon: Icon)
    ensures icon == DatabaseIcon <==> name !in ["LayoutDashboard", "Users", "Key", "CreditCard", "Settings"]
    ensures name == "LayoutDashboard" <==> icon == LayoutDashboardIcon
    ensures name == "Users" <==> icon == UsersIcon
    ensures name == "Key" <==> icon == KeyIcon
    ensures name == "CreditCard" <==> icon == CreditCardIcon
    ensures name == "Settings" <==> icon == SettingsIcon
  {
    match name
    case "LayoutDashboard" => LayoutDashboardIcon
    case "Users" => UsersIcon
    case "Key" => KeyIcon
    case "CreditCard" => CreditCardIcon
    case "Settings" => SettingsIcon
    case _ => DatabaseIcon
  }

  /** One rendered menu entry: its React key, button variant, icon, title and badge. */
  datatype MenuEntry = MenuEntry(key: string, variant: Variant, icon: Icon, title: string, badge: Option<nat>)

  /** The entries `NavMainAdmin` renders on page `pathname`. */
  function RenderNav(items: seq<NavItem>, pathname: string): (entries: seq<MenuEntry>)
    ensures |entries| == |items|
    ensures forall i :: 0 <= i < |items| ==>
      && entries[i].key == items[i].href
      && entries[i].title == items[i].title
      && entries[i].icon == GetIcon(items[i].icon)
      && entries[i].badge == items[i].count
      && (pathname == items[i].href ==> entries[i].variant == Default)
      && (pathname != items[i].href ==> entries[i].variant == items[i].variant)
  {
    seq(|items|, i requires 0 <= i < |items| =>
      MenuEntry(items[i].href, if pathname == items[i].href then Default else items[i].variant,
                GetIcon(items[i].icon), items[i].title, items[i].count))
  }

  /**
   * On the server's list, Dashboard is always highlighted, and any other
   * entry is highlighted exactly when it is the current page: on
   * "/admin1208/users" two entries are drawn as current.
   */
  lemma DashboardAlwaysHighlighted(counts: Counts, pathname: string)
    ensures var entries := RenderNav(GetDbModels(Some(counts)).items, pathname);
      && entries[0].variant == Default
      && (forall i :: 1 <= i < |entries| ==> (entries[i].variant == Default <==> pathname == entries[i].key))
  {
  }

  /** Every entry of the server's list has its own icon, never the fallback. */
  lemma ServerIconsKnown(counts: Counts, pathname: string)
    ensures var entries := RenderNav(GetDbModels(Some(counts)).items, pathname);
      forall i :: 0 <= i < |entries| ==> entries[i].icon != DatabaseIcon
  {
  }

  /** A zero count still shows its badge: only an absent count hides it. */
  lemma ZeroCountShowsBadge(pathname: string)
    ensures RenderNav(GetDbModels(Some(Counts(0, 0, 0))).items, pathname)[1].badge == Some(0)
  {
  }
}
