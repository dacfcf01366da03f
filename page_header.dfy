// The header of a workspace page (views/shared/PageHeader/PageHeader.tsx): its title, taken
// from the props or generated from the last breadcrumb; the browser window's title; the icons
// that depict the item; and the hook through which a page updates single header properties.
module PageHeader {
  import opened Results
  import opened JsStrings
  import opened RouterOperations

  datatype Breadcrumb = Breadcrumb(text: Option<string>, href: Option<string>)

  /** A crumb's text as the title uses it: a missing text reads as "". */
  function CrumbText(b: Breadcrumb): string
  {
    b.text.GetOr("")
  }

  /** A set, non-empty string. */
  predicate Truthy(s: Option<string>)
  {
    s.Some? && s.value != ""
  }

  /** `a || b` on an optional string. */
  function Or(a: Option<string>, b: string): string
  {
    if Truthy(a) then a.value else b
  }

  /** `generatedPageTitle`: the last breadcrumb's text when the title is generated, else "". */
  function GeneratedPageTitle(autogeneratePageTitle: bool, breadcrumbs: Option<seq<Breadcrumb>>): (r: string)
    ensures !autogeneratePageTitle || breadcrumbs.None? || breadcrumbs.value == [] ==> r == ""
    ensures autogeneratePageTitle && breadcrumbs.Some? && breadcrumbs.value != [] ==>
      r == CrumbText(breadcrumbs.value[|breadcrumbs.value| - 1])
  {
    if autogeneratePageTitle && breadcrumbs.Some? && |breadcrumbs.value| > 0
    then CrumbText(breadcrumbs.value[|breadcrumbs.value| - 1])
    else ""
  }

  function TypeInfo(itemType: Option<string>): (r: string)
  {
    if Truthy(itemType) then "(" + itemType.value + ")" else ""
  }

  /** The texts of all crumbs but the last. */
  function ParentTexts(breadcrumbs: seq<Breadcrumb>): (r: seq<string>)
    requires |breadcrumbs| > 0
    ensures |r| == |breadcrumbs| - 1
    ensures forall i :: 0 <= i < |r| ==> r[i] == CrumbText(breadcrumbs[i])
  {
    seq(|breadcrumbs| - 1, i requires 0 <= i < |breadcrumbs| - 1 => CrumbText(breadcrumbs[i]))
  }

  /** "at " and the parents' texts joined by " / ", when there is more than one crumb. */
  function Position(breadcrumbs: Option<seq<Breadcrumb>>): string
  {
    if breadcrumbs.Some? && |breadcrumbs.value| > 1 then "at " + Join(ParentTexts(breadcrumbs.value), " / ") else ""
  }

  /** " — corporation suite" when either name is set. */
  function BrandingSuffix(corporationName: string, suiteName: string): string
  {
    if corporationName != "" || suiteName != "" then " — " + corporationName + " " + suiteName else ""
  }

  /** `renderWindowTitle`; the corporation and suite names are what the imported configuration functions return when called. */
  function WindowTitle(pageTitle: Option<string>, generatedPageTitle: string, itemType: Option<string>,
                       breadcrumbs: Option<seq<Breadcrumb>>, corporationName: string, suiteName: string): string
  {
    Or(pageTitle, generatedPageTitle) + " " + TypeInfo(itemType) + " " + Position(breadcrumbs)
    + BrandingSuffix(corporationName, suiteName)
  }

  /** A joined list of two or more parts holds the separator right after the first part. */
  lemma {:induction false} JoinSpec(parts: seq<string>, sep: string)
    ensures |parts| == 0 ==> Join(parts, sep) == ""
    ensures |parts| > 0 ==> StartsWith(Join(parts, sep), parts[0])
    ensures |parts| > 1 ==> StartsWith(Join(parts, sep), parts[0] + sep)
    ensures |Join(parts, sep)| >= (if |parts| > 0 then (|parts| - 1) * |sep| else 0)
    decreases |parts|
  {
    if |parts| > 1 {
      JoinSpec(parts[1..], sep);
      var rest := Join(parts[1..], sep);
      assert Join(parts, sep) == parts[0] + sep + rest;
      assert (parts[0] + sep + rest)[..|parts[0]|] == parts[0];
      assert (parts[0] + sep + rest)[..|parts[0] + sep|] == parts[0] + sep;
    }
  }

  /** The type information is "(type)" exactly when a type is set. */
  lemma TypeInfoSpec(itemType: Option<string>)
    ensures TypeInfo(itemType) == "" <==> !Truthy(itemType)
    ensures Truthy(itemType) ==> StartsWith(TypeInfo(itemType), "(") && EndsWith(TypeInfo(itemType), ")")
  {
  }

  /** The position is there exactly when there is more than one crumb, and names the first crumb first. */
  lemma PositionSpec(breadcrumbs: Option<seq<Breadcrumb>>)
    ensures Position(breadcrumbs) != "" <==> breadcrumbs.Some? && |breadcrumbs.value| > 1
    ensures breadcrumbs.Some? && |breadcrumbs.value| > 1 ==>
      StartsWith(Position(breadcrumbs), "at " + CrumbText(breadcrumbs.value[0]))
  {
    if breadcrumbs.Some? && |breadcrumbs.value| > 1 {
      var parents := ParentTexts(breadcrumbs.value);
      JoinSpec(parents, " / ");
      var joined := Join(parents, " / ");
      assert joined[..|parents[0]|] == parents[0];
      assert ("at " + joined)[..|"at " + parents[0]|] == "at " + parents[0];
    }
  }

  /** A concatenation starts with its first part and ends with its second. */
  lemma ConcatEnds(a: string, b: string)
    ensures StartsWith(a + b, a) && EndsWith(a + b, b)
  {
    assert (a + b)[..|a|] == a;
    assert (a + b)[|a + b| - |b|..] == b;
  }

  /**
   * The window title starts with the shown title and a space; the branding is there exactly
   * when either name is set, and then ends the title.
   */
  lemma WindowTitleSpec(pageTitle: Option<string>, generatedPageTitle: string, itemType: Option<string>,
                        breadcrumbs: Option<seq<Breadcrumb>>, corporationName: string, suiteName: string)
    ensures StartsWith(WindowTitle(pageTitle, generatedPageTitle, itemType, breadcrumbs, corporationName, suiteName),
                       Or(pageTitle, generatedPageTitle) + " ")
    ensures corporationName != "" || suiteName != "" ==>
      EndsWith(WindowTitle(pageTitle, generatedPageTitle, itemType, breadcrumbs, corporationName, suiteName),
               " — " + corporationName + " " + suiteName)
    ensures BrandingSuffix(corporationName, suiteName) == "" <==> corporationName == "" && suiteName == ""
  {
    var shown := Or(pageTitle, generatedPageTitle) + " ";
    var middle := TypeInfo(itemType) + " " + Position(breadcrumbs);
    var suffix := BrandingSuffix(corporationName, suiteName);
    assert WindowTitle(pageTitle, generatedPageTitle, itemType, breadcrumbs, corporationName, suiteName)
           == shown + (middle + suffix) == (shown + middle) + suffix;
    ConcatEnds(shown, middle + suffix);
    ConcatEnds(shown + middle, suffix);
  }

  /** `handleBreadcrumbItemClick`: a crumb with a link goes to that page, with no labels. */
  function BreadcrumbClick(itemUrl: Option<string>, servePath: string): (r: Option<Navigation>)
    ensures r.Some? <==> Truthy(itemUrl)
    ensures r.Some? ==> r.value == GoToPage(itemUrl.value, NoLabels, servePath)
  {
    if Truthy(itemUrl) then Some(GoToPage(itemUrl.value, NoLabels, servePath)) else None
  }

  /**
   * `getDepictionIcons`: the icon of the item's type (lower-cased) and then the alternative
   * depiction, each when set.
   */
  method GetDepictionIcons(itemType: Option<string>, alternateDepiction: Option<string>) returns (iconNames: seq<string>)
    ensures |iconNames| <= 2
    ensures |iconNames| == (if Truthy(itemType) then 1 else 0) + (if Truthy(alternateDepiction) then 1 else 0)
    ensures Truthy(itemType) ==> iconNames[0] == "artefact-" + ToLower(itemType.value)
    ensures Truthy(alternateDepiction) ==> iconNames[|iconNames| - 1] == alternateDepiction.value
  {
    iconNames := [];
    if Truthy(itemType) {
      iconNames := iconNames + ["artefact-" + ToLower(itemType.value)];
    }
    if Truthy(alternateDepiction) {
      iconNames := iconNames + [alternateDepiction.value];
    }
  }

  /** The header's properties; the menu element is represented by a name. */
  datatype HeaderProps = HeaderProps(
    itemType: Option<string>,
    alternateDepiction: Option<string>,
    breadcrumbs: Option<seq<Breadcrumb>>,
    autogenerateBreadcrumbs: Option<bool>,
    pageTitle: Option<string>,
    autogeneratePageTitle: Option<bool>,
    actionsMenu: Option<string>)

  /**
   * An update: each field is absent (None) or present with its new value, which may itself be
   * undefined (Some(None)); a present field overwrites, even with undefined.
   */
  datatype HeaderUpdate = HeaderUpdate(
    itemType: Option<Option<string>>,
    alternateDepiction: Option<Option<string>>,
    breadcrumbs: Option<Option<seq<Breadcrumb>>>,
    autogenerateBreadcrumbs: Option<Option<bool>>,
    pageTitle: Option<Option<string>>,
    autogeneratePageTitle: Option<Option<bool>>,
    actionsMenu: Option<Option<string>>)

  const NoUpdate := HeaderUpdate(None, None, None, None, None, None, None)

  function Pick<T>(current: T, update: Option<T>): T
  {
    if update.Some? then update.value else current
  }

  /** `{ ...props, ...update }`. */
  function Merge(props: HeaderProps, u: HeaderUpdate): HeaderProps
  {
    HeaderProps(Pick(props.itemType, u.itemType), Pick(props.alternateDepiction, u.alternateDepiction),
                Pick(props.breadcrumbs, u.breadcrumbs), Pick(props.autogenerateBreadcrumbs, u.autogenerateBreadcrumbs),
                Pick(props.pageTitle, u.pageTitle), Pick(props.autogeneratePageTitle, u.autogeneratePageTitle),
                Pick(props.actionsMenu, u.actionsMenu))
  }

  /** Of two updates of one field, the later one when it is present. */
  function Later<T>(first: Option<T>, second: Option<T>): Option<T>
  {
    if second.Some? then second else first
  }

  /** Two updates in a row: the later one's present fields win. */
  function Then(first: HeaderUpdate, second: HeaderUpdate): HeaderUpdate
  {
    HeaderUpdate(Later(first.itemType, second.itemType), Later(first.alternateDepiction, second.alternateDepiction),
                 Later(first.breadcrumbs, second.breadcrumbs), Later(first.autogenerateBreadcrumbs, second.autogenerateBreadcrumbs),
                 Later(first.pageTitle, second.pageTitle), Later(first.autogeneratePageTitle, second.autogeneratePageTitle),
                 Later(first.actionsMenu, second.actionsMenu))
  }

  /**
   * Merging is idempotent, the empty update changes nothing, and two merges in a row are one
   * merge of the combined update.
   */
  lemma MergeSpec(props: HeaderProps, u: HeaderUpdate, v: HeaderUpdate)
    ensures Merge(Merge(props, u), u) == Merge(props, u)
    ensures Merge(props, NoUpdate) == props
    ensures Merge(Merge(props, u), v) == Merge(props, Then(u, v))
  {
  }

  /** The usePageHeader hook's state. */
  class PageHeaderHook {
    var props: HeaderProps

    constructor (initial: HeaderProps)
      ensures props == initial
    {
      props := initial;
    }

    /** The title the header shows. */
    function ShownTitle(): string
      reads this
    {
      Or(props.pageTitle, GeneratedPageTitle(props.autogeneratePageTitle.GetOr(false), props.breadcrumbs))
    }

    /** Whether the header is wrapped by the breadcrumb fetcher. */
    predicate FetchesBreadcrumbs()
      reads this
    {
      props.autogenerateBreadcrumbs.GetOr(false)
    }

    method UpdatePageHeader(update: HeaderUpdate)
      modifies this
      ensures props == Merge(old(props), update)
    {
      props := Merge(props, update);
    }

    method UpdateType(update: Option<string>)
      modifies this
      ensures props == old(props).(itemType := update)
    {
      UpdatePageHeader(NoUpdate.(itemType := Some(update)));
    }

    /** A given title replaces the generated one: the header then shows the given title, or nothing. */
    method UpdatePageTitle(update: Option<string>)
      modifies this
      ensures props == old(props).(pageTitle := update, autogeneratePageTitle := Some(false))
      ensures ShownTitle() == Or(update, "")
    {
      UpdatePageHeader(NoUpdate.(pageTitle := Some(update), autogeneratePageTitle := Some(Some(false))));
    }

    /** Given breadcrumbs replace the fetched ones. */
    method UpdateBreadcrumbs(update: Option<seq<Breadcrumb>>)
      modifies this
      ensures props == old(props).(breadcrumbs := update, autogenerateBreadcrumbs := Some(false))
      ensures !FetchesBreadcrumbs()
    {
      UpdatePageHeader(NoUpdate.(breadcrumbs := Some(update), autogenerateBreadcrumbs := Some(Some(false))));
    }

    method UpdateActionsMenu(update: Option<string>)
      modifies this
      ensures props == old(props).(actionsMenu := update)
    {
      UpdatePageHeader(NoUpdate.(actionsMenu := Some(update)));
    }
  }
}
