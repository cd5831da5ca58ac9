/**
 * The toolbar button of background.js: its title and icon per tab
 * (`setActionState`), `initializePageAction`, `cancelDownload`,
 * `toggleStatus`, `finalizeDownloadProcess` and the URL-change listener.
 *
 * The browser keeps one extension-wide title and icon (what `setActionState`
 * sets when it is given no tab) and per-tab ones that take precedence.
 */
module Toolbar {
  import opened Wrappers
  import opened BandcampUrl

  type TabId = int

  datatype ActionState = ActionState(title: string, icon: string)

  const ApplyTitle: string := "Download Metadata"
  const RemoveTitle: string := "Cancel Download"

  /** Ready to download. */
  const Idle: ActionState := ActionState(ApplyTitle, "icons/off.svg")
  /** A download is running. */
  const Busy: ActionState := ActionState(RemoveTitle, "icons/on.svg")
  /** The page is not an album or track page. */
  const Ineligible: ActionState := ActionState("Not a Bandcamp Album", "icons/disabled.svg")

  /** The button as the browser shows it: the extension-wide state and the per-tab overrides. */
  datatype Board = Board(global: ActionState, perTab: map<TabId, ActionState>)

  /** What the button of `tab` shows. */
  function Shown(b: Board, tab: TabId): ActionState {
    if tab in b.perTab then b.perTab[tab] else b.global
  }

  /** The choice of initializePageAction for a page address. */
  function PageActionFor(url: string): (s: ActionState)
    ensures s == Idle <==> UrlIsApplicable(url)
    ensures s == Ineligible <==> !UrlIsApplicable(url)
  {
    if UrlIsApplicable(url) then Idle else Ineligible
  }

  /** What a click does, decided by the title the tab's button shows. */
  datatype Click = Start | Cancel

  function ClickFor(currentTitle: string): (c: Click)
    ensures c == Start <==> currentTitle == ApplyTitle
  {
    if currentTitle == ApplyTitle then Start else Cancel
  }

  /** The board after setActionState for one tab, or for every tab without its own state. */
  function Set(b: Board, tab: Option<TabId>, s: ActionState): Board {
    match tab
    case Some(t) => b.(perTab := b.perTab[t := s])
    case None => b.(global := s)
  }

  /** The board after a click on the button of `tab`, showing `url`. */
  function Toggled(b: Board, tab: TabId, url: string): Board {
    match ClickFor(Shown(b, tab).title)
    case Start => Set(b, Some(tab), Busy)
    case Cancel => Set(Set(b, Some(tab), Idle), Some(tab), PageActionFor(url))
  }

  /** A click on an idle button starts a download and shows "Cancel Download" with the `on` icon. */
  lemma ClickOnIdleStarts(b: Board, tab: TabId, url: string)
    requires Shown(b, tab).title == ApplyTitle
    ensures Shown(Toggled(b, tab, url), tab) == Busy
    ensures forall t :: t != tab ==> Shown(Toggled(b, tab, url), t) == Shown(b, t)
  {
  }

  /**
   * A click on any other title cancels: the button goes back to "Download
   * Metadata" on an album or track page, and to "Not a Bandcamp Album" elsewhere.
   */
  lemma ClickOtherwiseCancels(b: Board, tab: TabId, url: string)
    requires Shown(b, tab).title != ApplyTitle
    ensures Shown(Toggled(b, tab, url), tab) == PageActionFor(url)
    ensures UrlIsApplicable(url) ==> Shown(Toggled(b, tab, url), tab) == Idle
    ensures forall t :: t != tab ==> Shown(Toggled(b, tab, url), t) == Shown(b, t)
  {
  }

  /** On an album or track page, a second click undoes the first one. */
  lemma ClickTwiceRestoresIdle(b: Board, tab: TabId, url: string)
    requires UrlIsApplicable(url) && Shown(b, tab) == Idle
    ensures Shown(Toggled(b, tab, url), tab) == Busy
    ensures Shown(Toggled(Toggled(b, tab, url), tab, url), tab) == Idle
  {
    ClickOnIdleStarts(b, tab, url);
    ClickOtherwiseCancels(Toggled(b, tab, url), tab, url);
  }

  /**
   * finalizeDownloadProcess resets the extension-wide state only: a tab whose
   * button was set to "Cancel Download" keeps showing it.
   */
  lemma FinalizeKeepsTabState(b: Board, tab: TabId)
    requires tab in b.perTab
    ensures Shown(Set(b, None, Idle), tab) == Shown(b, tab)
    ensures forall t :: t !in b.perTab ==> Shown(Set(b, None, Idle), t) == Idle
  {
  }

  class ActionBoard {
    var global: ActionState
    var perTab: map<TabId, ActionState>

    function Value(): Board
      reads this
    {
      Board(global, perTab)
    }

    /** The extension starts with the state its manifest declares. */
    constructor (initial: ActionState)
      ensures Value() == Board(initial, map[])
    {
      global := initial;
      perTab := map[];
    }

    /** setActionState; `None` stands for the `null` tab id. */
    method SetActionState(tab: Option<TabId>, title: string, iconPath: string)
      modifies this
      ensures Value() == Set(old(Value()), tab, ActionState(title, iconPath))
    {
      match tab {
        case Some(t) => perTab := perTab[t := ActionState(title, iconPath)];
        case None => global := ActionState(title, iconPath);
      }
    }

    /** initializePageAction */
    method InitializePageAction(tab: TabId, url: string)
      modifies this
      ensures Value() == Set(old(Value()), Some(tab), PageActionFor(url))
    {
      if UrlIsApplicable(url) {
        SetActionState(Some(tab), ApplyTitle, "icons/off.svg");
      } else {
        SetActionState(Some(tab), "Not a Bandcamp Album", "icons/disabled.svg");
      }
    }

    /** cancelDownload: reset to idle, then re-apply the page's own state. */
    method CancelDownload(tab: TabId, url: string)
      modifies this
      ensures Value() == Set(Set(old(Value()), Some(tab), Idle), Some(tab), PageActionFor(url))
      ensures Shown(Value(), tab) == PageActionFor(url)
    {
      SetActionState(Some(tab), ApplyTitle, "icons/off.svg");
      InitializePageAction(tab, url);
    }

    /**
     * toggleStatus, with the first step of startDownload (the button turns to
     * "Cancel Download"); the rest of a started download is the album reply.
     */
    method ToggleStatus(tab: TabId, url: string) returns (click: Click)
      modifies this
      ensures click == ClickFor(Shown(old(Value()), tab).title)
      ensures Value() == Toggled(old(Value()), tab, url)
    {
      var currentTitle := if tab in perTab then perTab[tab].title else global.title;
      click := ClickFor(currentTitle);
      if currentTitle == ApplyTitle {
        SetActionState(Some(tab), RemoveTitle, "icons/on.svg");
      } else {
        CancelDownload(tab, url);
      }
    }

    /** finalizeDownloadProcess: setActionState with a `null` tab id. */
    method FinalizeDownloadProcess()
      modifies this
      ensures Value() == Set(old(Value()), None, Idle)
    {
      SetActionState(None, ApplyTitle, "icons/off.svg");
    }

    /**
     * The `tabs.onUpdated` listener: when a tab's address changes to an
     * applicable one, its button is initialized; any other change leaves it.
     */
    method OnTabUpdated(tab: TabId, changedUrl: Option<string>)
      modifies this
      ensures changedUrl.Some? && changedUrl.value != [] && UrlIsApplicable(changedUrl.value)
              ==> Value() == Set(old(Value()), Some(tab), Idle)
      ensures !(changedUrl.Some? && changedUrl.value != [] && UrlIsApplicable(changedUrl.value))
              ==> Value() == old(Value())
    {
      if changedUrl.Some? && changedUrl.value != [] && UrlIsApplicable(changedUrl.value) {
        InitializePageAction(tab, changedUrl.value);
      }
    }
  }
}
