// The layout's view header (views/layout/Header/ViewHeader.tsx): the older sibling of the page
// header, with its own title rules, icon list, nested action menu, action buttons and hook.
module ViewHeader {
  import opened Results
  import opened JsStrings
  import PageHeader

  type Breadcrumb = PageHeader.Breadcrumb

  const TypeError := "TypeError"

  /**
   * `generatedPagetitle`: the last breadcrumb's text (converted with `toString`, which throws
   * on a crumb without text) under `autoPagetitle` with breadcrumbs, and "" otherwise.
   */
  function GeneratedPagetitle(autoPagetitle: bool, breadcrumbs: Option<seq<Breadcrumb>>): (r: Result<string, string>)
    ensures r.Err? <==> autoPagetitle && breadcrumbs.Some? && |breadcrumbs.value| > 0
                        && breadcrumbs.value[|breadcrumbs.value| - 1].text.None?
    ensures r.Ok? ==> r.value == PageHeader.GeneratedPageTitle(autoPagetitle, breadcrumbs)
  {
    if autoPagetitle && breadcrumbs.Some? && |breadcrumbs.value| > 0 then
      var last := breadcrumbs.value[|breadcrumbs.value| - 1];
      if last.text.None? then Err(TypeError) else Ok(last.text.value)
    else Ok("")
  }

  /**
   * A name the configuration exports, which both headers import: a function taking no
   * argument. Calling it gives `name`; interpolating the function itself into a template
   * gives `sourceText`, the text `Function.prototype.toString` prints for it.
   */
  datatype NameGetter = NameGetter(name: string, sourceText: string)

  /** The text of a function taking no argument holds its parameter list, so an opening parenthesis. */
  predicate IsFunctionText(t: string)
  {
    '(' in t
  }

  /** The application part of the title: " — corporation suite". */
  function Application(corporationName: string, suiteName: string): string
  {
    " — " + corporationName + " " + suiteName
  }

  /** The part of the window title before the application part. */
  function TitleFront(pagetitle: Option<string>, generatedPagetitle: string, itemType: Option<string>,
                      breadcrumbs: Option<seq<Breadcrumb>>): string
  {
    PageHeader.Or(pagetitle, generatedPagetitle) + " " + PageHeader.TypeInfo(itemType) + " "
    + PageHeader.Position(breadcrumbs)
  }

  /**
   * `renderWindowTitle` as written: the template interpolates the imported functions
   * themselves, so the application part shows their source text. Unlike the page header the
   * application part is always there.
   */
  function WindowTitle(pagetitle: Option<string>, generatedPagetitle: string, itemType: Option<string>,
                       breadcrumbs: Option<seq<Breadcrumb>>, corporation: NameGetter, suite: NameGetter): string
  {
    TitleFront(pagetitle, generatedPagetitle, itemType, breadcrumbs) + Application(corporation.sourceText, suite.sourceText)
  }

  /** The title the view header evidently means: the functions called, as the page header does. */
  function IntendedWindowTitle(pagetitle: Option<string>, generatedPagetitle: string, itemType: Option<string>,
                               breadcrumbs: Option<seq<Breadcrumb>>, corporation: NameGetter, suite: NameGetter): string
  {
    TitleFront(pagetitle, generatedPagetitle, itemType, breadcrumbs) + Application(corporation.name, suite.name)
  }

  /** The view header's window title always ends with the interpolated application part. */
  lemma WindowTitleSpec(pagetitle: Option<string>, generatedPagetitle: string, itemType: Option<string>,
                        breadcrumbs: Option<seq<Breadcrumb>>, corporation: NameGetter, suite: NameGetter)
    ensures EndsWith(WindowTitle(pagetitle, generatedPagetitle, itemType, breadcrumbs, corporation, suite),
                     " — " + corporation.sourceText + " " + suite.sourceText)
  {
    PageHeader.ConcatEnds(TitleFront(pagetitle, generatedPagetitle, itemType, breadcrumbs),
                          Application(corporation.sourceText, suite.sourceText));
  }

  /**
   * As written, the title never shows names free of parentheses: it shows the functions'
   * text, which holds one, so it differs from the intended title.
   */
  lemma WindowTitleShowsFunctionText(pagetitle: Option<string>, generatedPagetitle: string, itemType: Option<string>,
                                     breadcrumbs: Option<seq<Breadcrumb>>, corporation: NameGetter, suite: NameGetter)
    requires IsFunctionText(corporation.sourceText) && IsFunctionText(suite.sourceText)
    requires '(' !in corporation.name && '(' !in suite.name
    ensures '(' in Application(corporation.sourceText, suite.sourceText)
    ensures WindowTitle(pagetitle, generatedPagetitle, itemType, breadcrumbs, corporation, suite)
            != IntendedWindowTitle(pagetitle, generatedPagetitle, itemType, breadcrumbs, corporation, suite)
  {
    var front := TitleFront(pagetitle, generatedPagetitle, itemType, breadcrumbs);
    var written := Application(corporation.sourceText, suite.sourceText);
    var intended := Application(corporation.name, suite.name);
    assert '(' in written;
    assert '(' !in intended;
    assert (front + written)[|front|..] == written;
    assert (front + intended)[|front|..] == intended;
  }

  /**
   * The intended title ends with the called names and, whenever either name is set, is the
   * page header's window title for the same names.
   */
  lemma IntendedTitleIsPageHeaders(pagetitle: Option<string>, generatedPagetitle: string, itemType: Option<string>,
                                   breadcrumbs: Option<seq<Breadcrumb>>, corporation: NameGetter, suite: NameGetter)
    ensures EndsWith(IntendedWindowTitle(pagetitle, generatedPagetitle, itemType, breadcrumbs, corporation, suite),
                     " — " + corporation.name + " " + suite.name)
    ensures corporation.name != "" || suite.name != "" ==>
      IntendedWindowTitle(pagetitle, generatedPagetitle, itemType, breadcrumbs, corporation, suite)
      == PageHeader.WindowTitle(pagetitle, generatedPagetitle, itemType, breadcrumbs, corporation.name, suite.name)
  {
    PageHeader.ConcatEnds(TitleFront(pagetitle, generatedPagetitle, itemType, breadcrumbs),
                          Application(corporation.name, suite.name));
    if corporation.name != "" || suite.name != "" {
      assert PageHeader.BrandingSuffix(corporation.name, suite.name) == Application(corporation.name, suite.name);
    }
  }

  /** `getDepictionIcons`: "artefact-" and the type as given (not lower-cased), then the alternative depiction. */
  method GetDepictionIcons(itemType: Option<string>, alternateDepiction: Option<string>) returns (iconNames: seq<string>)
    ensures |iconNames| == (if PageHeader.Truthy(itemType) then 1 else 0) + (if PageHeader.Truthy(alternateDepiction) then 1 else 0)
    ensures PageHeader.Truthy(itemType) ==> iconNames[0] == "artefact-" + itemType.value
    ensures PageHeader.Truthy(alternateDepiction) ==> iconNames[|iconNames| - 1] == alternateDepiction.value
  {
    iconNames := [];
    if PageHeader.Truthy(itemType) {
      iconNames := iconNames + ["artefact-" + itemType.value];
    }
    if PageHeader.Truthy(alternateDepiction) {
      iconNames := iconNames + [alternateDepiction.value];
    }
  }

  /**
   * An entry of the full actions menu: an action with a handler (named here), or a parent entry
   * when it has subitems (missing subitems are given as none). The icon is read but not
   * passed on.
   */
  datatype ActionsMenuItem = ActionsMenuItem(text: string, icon: Option<string>, actionHandler: Option<string>,
                                             disabled: Option<bool>, subitems: seq<ActionsMenuItem>)

  /** A rendered menu entry. */
  datatype MenuEntry =
    | SubMenu(key: string, text: string, children: seq<MenuEntry>)
    | ActionEntry(key: string, text: string, onClick: Option<string>, disabled: bool)

  predicate HasSubitems(item: ActionsMenuItem)
  {
    |item.subitems| > 0
  }

  function MenuKey(index: nat): string
  {
    "menuitem_" + NatToString(index)
  }

  /** `renderMenuItems` on the items from position `index` on. */
  function RenderMenuFrom(items: seq<ActionsMenuItem>, index: nat): (r: seq<MenuEntry>)
    ensures |r| == |items|
    decreases items
  {
    if |items| == 0 then [] else [RenderMenuItem(items[0], index)] + RenderMenuFrom(items[1..], index + 1)
  }

  /** One entry: a sub-menu of its rendered subitems, or an action carrying its handler and a strict `disabled`. */
  function RenderMenuItem(item: ActionsMenuItem, index: nat): MenuEntry
    decreases item
  {
    if HasSubitems(item) then SubMenu(MenuKey(index), item.text, RenderMenuFrom(item.subitems, 0))
    else ActionEntry(MenuKey(index), item.text, item.actionHandler, item.disabled == Some(true))
  }

  function RenderMenuItems(items: seq<ActionsMenuItem>): seq<MenuEntry>
  {
    RenderMenuFrom(items, 0)
  }

  /**
   * Each item becomes one entry at its own position, keyed by that position: a sub-menu with
   * as many children as it has subitems exactly when it has subitems, an action otherwise.
   */
  lemma {:induction false} RenderMenuFromSpec(items: seq<ActionsMenuItem>, index: nat)
    ensures forall i :: 0 <= i < |items| ==>
      && RenderMenuFrom(items, index)[i].key == MenuKey(index + i)
      && RenderMenuFrom(items, index)[i].text == items[i].text
      && (RenderMenuFrom(items, index)[i].SubMenu? <==> HasSubitems(items[i]))
      && (HasSubitems(items[i]) ==> |RenderMenuFrom(items, index)[i].children| == |items[i].subitems|)
    decreases items
  {
    if |items| > 0 {
      RenderMenuFromSpec(items[1..], index + 1);
      forall i | 0 < i < |items|
        ensures RenderMenuFrom(items, index)[i] == RenderMenuFrom(items[1..], index + 1)[i - 1]
      {
      }
    }
  }

  /** The actions of a menu, depth first: what each leaf shows and does. */
  function LeafActions(items: seq<ActionsMenuItem>): seq<(string, Option<string>, bool)>
    decreases items
  {
    if |items| == 0 then [] else LeafActionsOf(items[0]) + LeafActions(items[1..])
  }

  function LeafActionsOf(item: ActionsMenuItem): seq<(string, Option<string>, bool)>
    decreases item
  {
    if HasSubitems(item) then LeafActions(item.subitems)
    else [(item.text, item.actionHandler, item.disabled == Some(true))]
  }

  /** The action entries of a rendered menu, depth first. */
  function RenderedActions(entries: seq<MenuEntry>): seq<(string, Option<string>, bool)>
    decreases entries
  {
    if |entries| == 0 then [] else RenderedActionsOf(entries[0]) + RenderedActions(entries[1..])
  }

  function RenderedActionsOf(entry: MenuEntry): seq<(string, Option<string>, bool)>
    decreases entry
  {
    match entry
    case SubMenu(_, _, children) => RenderedActions(children)
    case ActionEntry(_, text, onClick, disabled) => [(text, onClick, disabled)]
  }

  /**
   * Rendering loses no action and invents none: the rendered menu offers exactly the leaf
   * actions, in order, each with its text, handler and disabled flag.
   */
  lemma {:induction false} RenderedActionsFrom(items: seq<ActionsMenuItem>, index: nat)
    ensures RenderedActions(RenderMenuFrom(items, index)) == LeafActions(items)
    decreases items
  {
    if |items| > 0 {
      RenderedActionsOfItem(items[0], index);
      RenderedActionsFrom(items[1..], index + 1);
      var r := RenderMenuFrom(items, index);
      assert r[0] == RenderMenuItem(items[0], index);
      assert r[1..] == RenderMenuFrom(items[1..], index + 1);
    }
  }

  lemma {:induction false} RenderedActionsOfItem(item: ActionsMenuItem, index: nat)
    ensures RenderedActionsOf(RenderMenuItem(item, index)) == LeafActionsOf(item)
    decreases item
  {
    if HasSubitems(item) {
      RenderedActionsFrom(item.subitems, 0);
    }
  }

  /** An action button (`actionPrimary` or one of `actionsSecondary`). */
  datatype ActionButton = ActionButton(text: string, icon: Option<string>, affirmative: Option<bool>,
                                       disruptive: Option<bool>, disabled: Option<bool>, actionHandler: Option<string>)

  /** A rendered icon button. */
  datatype IconButton = IconButton(name: string, text: string, key: string, affirmative: bool,
                                   disruptive: bool, disabled: bool, onClick: Option<string>)

  /** A secondary action becomes an icon button named by its icon, or "undefined" without one. */
  function SecondaryButton(action: ActionButton): (r: IconButton)
    ensures r.name == (if PageHeader.Truthy(action.icon) then action.icon.value else "undefined")
    ensures r.text == r.key == action.text
    ensures r.disabled <==> action.disabled == Some(true)
    ensures r.affirmative <==> action.affirmative == Some(true)
    ensures r.disruptive <==> action.disruptive == Some(true)
  {
    IconButton(if PageHeader.Truthy(action.icon) then action.icon.value else "undefined", action.text, action.text,
               action.affirmative == Some(true), action.disruptive == Some(true), action.disabled == Some(true),
               action.actionHandler)
  }

  /** The properties the hook renders the header with; the other properties stay as given. */
  datatype RenderedProps = RenderedProps(itemType: Option<string>, pagetitle: Option<string>,
                                         autoBreadcrumbs: bool, breadcrumbs: Option<seq<Breadcrumb>>)

  /** The view header's `usePageHeader` hook: type, title and breadcrumbs are its state. */
  class ViewHeaderHook {
    const autoBreadcrumbs: bool
    var itemType: Option<string>
    var pagetitle: Option<string>
    var breadcrumbs: Option<seq<Breadcrumb>>

    constructor (autoBreadcrumbs: bool, itemType: Option<string>, pagetitle: Option<string>,
                 breadcrumbs: Option<seq<Breadcrumb>>)
      ensures this.autoBreadcrumbs == autoBreadcrumbs && this.itemType == itemType
      ensures this.pagetitle == pagetitle && this.breadcrumbs == breadcrumbs
    {
      this.autoBreadcrumbs := autoBreadcrumbs;
      this.itemType := itemType;
      this.pagetitle := pagetitle;
      this.breadcrumbs := breadcrumbs;
    }

    /** With `autoBreadcrumbs` the header fetches its own breadcrumbs and gets none from the hook. */
    function Rendered(): (r: RenderedProps)
      reads this
      ensures r.autoBreadcrumbs == autoBreadcrumbs
      ensures r.breadcrumbs == if autoBreadcrumbs then None else breadcrumbs
    {
      RenderedProps(itemType, pagetitle, autoBreadcrumbs, if autoBreadcrumbs then None else breadcrumbs)
    }

    method UpdateType(update: Option<string>)
      modifies this
      ensures itemType == update && pagetitle == old(pagetitle) && breadcrumbs == old(breadcrumbs)
      ensures Rendered() == old(Rendered()).(itemType := update)
    {
      itemType := update;
    }

    method UpdatePagetitle(update: Option<string>)
      modifies this
      ensures pagetitle == update && itemType == old(itemType) && breadcrumbs == old(breadcrumbs)
      ensures Rendered() == old(Rendered()).(pagetitle := update)
    {
      pagetitle := update;
    }

    /** New breadcrumbs reach the header only when it does not fetch its own. */
    method UpdateBreadcrumbs(update: Option<seq<Breadcrumb>>)
      modifies this
      ensures breadcrumbs == update && itemType == old(itemType) && pagetitle == old(pagetitle)
      ensures autoBreadcrumbs ==> Rendered() == old(Rendered())
      ensures !autoBreadcrumbs ==> Rendered().breadcrumbs == update
    {
      breadcrumbs := update;
    }
  }
}
