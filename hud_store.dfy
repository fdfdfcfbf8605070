/**
 * The HUD's shared application store and the two components that write to
 * it: tech panels, which open and close themselves through the store's
 * active panel id, and the main console's command dialog, whose "Exit"
 * and "Trajectory Map" commands flip the idle flag and set the active
 * panel.
 */
module HudStore {
  import opened Wrappers

  /** The id "Trajectory Map" makes active. */
  const TrajectoryPanelId := "todo"

  class AppStore {
    var isHudIdle: bool
    var activeTechPanelId: Option<string>

    /** The store starts idle with no panel active. */
    constructor()
      ensures isHudIdle && activeTechPanelId.None?
    {
      isHudIdle := true;
      activeTechPanelId := None;
    }

    /** A panel is active exactly when the store holds its id. */
    predicate IsActive(panelId: string)
      reads this
    {
      activeTechPanelId == Some(panelId)
    }

    /** A panel's body renders on larger screens always, and on mobile only while the panel is active. */
    predicate BodyShown(isMobile: bool, panelId: string)
      reads this
    {
      !isMobile || IsActive(panelId)
    }

    /**
     * A click on a tech panel's title: the active panel closes, any other
     * becomes the only active one. The idle flag is untouched.
     */
    method ClickTechPanel(panelId: string)
      modifies this
      ensures old(IsActive(panelId)) ==> activeTechPanelId.None?
      ensures !old(IsActive(panelId)) ==> IsActive(panelId)
      ensures forall other :: other != panelId ==> !IsActive(other)
      ensures isHudIdle == old(isHudIdle)
    {
      activeTechPanelId := if activeTechPanelId == Some(panelId) then None else Some(panelId);
    }

    /** "Exit": the idle flag flips and the active panel stays. */
    method ExitPressed()
      modifies this
      ensures isHudIdle == !old(isHudIdle)
      ensures activeTechPanelId == old(activeTechPanelId)
    {
      isHudIdle := !isHudIdle;
    }

    /** "Trajectory Map": the active panel id becomes `"todo"`; the idle flag stays. */
    method TrajectoryPressed()
      modifies this
      ensures IsActive(TrajectoryPanelId)
      ensures isHudIdle == old(isHudIdle)
    {
      activeTechPanelId := Some(TrajectoryPanelId);
    }
  }

  /** On mobile at most one panel body renders; on larger screens every body does. */
  lemma OneBodyOnMobile(store: AppStore, a: string, b: string)
    ensures store.BodyShown(true, a) && store.BodyShown(true, b) ==> a == b
    ensures store.BodyShown(false, a)
  {
  }

  /** On mobile a click toggles the clicked panel's body and hides every other body. */
  method ClickOnMobile(store: AppStore, panelId: string)
    modifies store
    ensures store.BodyShown(true, panelId) <==> !old(store.BodyShown(true, panelId))
    ensures forall other :: other != panelId ==> !store.BodyShown(true, other)
  {
    store.ClickTechPanel(panelId);
  }

  /** Pressing "Exit" twice restores the idle flag; the active panel is never touched. */
  method ExitTwice(store: AppStore)
    modifies store
    ensures store.isHudIdle == old(store.isHudIdle)
    ensures store.activeTechPanelId == old(store.activeTechPanelId)
  {
    store.ExitPressed();
    store.ExitPressed();
  }

  /** Clicking the same panel twice restores the active panel when it was this panel or none. */
  method ClickTwice(store: AppStore, panelId: string)
    modifies store
    ensures old(store.activeTechPanelId).None? || old(store.IsActive(panelId)) ==>
              store.activeTechPanelId == old(store.activeTechPanelId)
    ensures old(store.activeTechPanelId).Some? && !old(store.IsActive(panelId)) ==>
              store.activeTechPanelId.None?
  {
    store.ClickTechPanel(panelId);
    store.ClickTechPanel(panelId);
  }

  /** The id of a panel's body element. */
  function ContentId(panelId: string): (r: string)
    ensures |r| == |panelId| + 8 && r[..|panelId|] == panelId && r[|panelId|..] == "-content"
  {
    panelId + "-content"
  }

  /** Distinct panels have distinct body ids. */
  lemma ContentIdInjective(a: string, b: string)
    requires ContentId(a) == ContentId(b)
    ensures a == b
  {
    assert a == ContentId(a)[..|a|];
    assert b == ContentId(b)[..|b|];
  }

  /** The main console's command dialog. */
  class MainConsole {
    var isOpen: bool

    constructor()
      ensures !isOpen
    {
      isOpen := false;
    }

    /** The logo button opens the dialog. */
    method LogoClicked()
      modifies this
      ensures isOpen
    {
      isOpen := true;
    }

    /** The dialog's open-change callback toggles, whatever state it asks for. */
    method OnOpenChange(requested: bool)
      modifies this
      ensures isOpen == !old(isOpen)
    {
      isOpen := !isOpen;
    }
  }
}
