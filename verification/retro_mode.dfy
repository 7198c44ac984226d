/** The retro-mode switch: a flag read from storage on load, flipped by the
    toggle button, written back to storage, and shown on the page. Storage
    is a parameter: the value under the `retroMode` key, or None when the
    key is absent. */
module RetroMode {

  import opened Options

  const OnLabel := "RETRO MODE: ON"
  const OffLabel := "RETRO MODE: OFF"

  /** The flag, the stored value, and what the page shows: the retro class
      on the body, the button's label and its active class. */
  datatype Retro = Retro(active: bool, stored: Option<string>,
                         bodyRetro: bool, caption: string, buttonActive: bool)

  /** What storage keeps when handed a boolean: its string form. */
  function StoredForm(b: bool): string {
    if b then "true" else "false"
  }

  /** On load the flag is read back from storage: it is the flag a toggle
      stored, and off when the key is absent or holds anything a toggle
      never writes. */
  function ReadFlag(stored: Option<string>): (active: bool)
    ensures stored == None ==> !active
    ensures forall b :: stored == Some(StoredForm(b)) ==> active == b
    ensures stored != Some(StoredForm(true)) && stored != Some(StoredForm(false)) ==> !active
  {
    stored == Some("true")
  }

  /** `applyRetroMode(active)`: the page shows the flag. */
  function Apply(r: Retro, active: bool): (r': Retro)
    ensures r'.active == active && r'.stored == r.stored
    ensures Shown(r')
  {
    r.(active := active, bodyRetro := active,
       caption := if active then OnLabel else OffLabel, buttonActive := active)
  }

  /** The page shows the flag: body class, label and button class agree with it. */
  predicate Shown(r: Retro) {
    && r.bodyRetro == r.active
    && r.buttonActive == r.active
    && r.caption == if r.active then OnLabel else OffLabel
  }

  /** The page on load; body, label and button before the first apply come
      from the markup and are overwritten at once. */
  function Load(stored: Option<string>, markup: Retro): (r: Retro)
    ensures r.stored == stored && Shown(r)
    ensures r.active <==> stored == Some("true")
  {
    Apply(markup.(stored := stored), ReadFlag(stored))
  }

  /** The toggle button: flip, store the new value, show it. */
  function Toggle(r: Retro): (r': Retro)
    ensures r'.active == !r.active
    ensures r'.stored == Some(StoredForm(r'.active))
    ensures Shown(r')
  {
    var active := !r.active;
    Apply(r.(stored := Some(StoredForm(active))), active)
  }

  /** What is persisted is what a reload reads back: after a toggle, the
      next page load starts in the toggled state. */
  lemma ToggleSurvivesReload(r: Retro, markup: Retro)
    ensures Load(Toggle(r).stored, markup) == Toggle(r)
  {
  }

  /** Toggling twice restores the flag and the display; storage then holds
      the original flag. */
  lemma ToggleTwice(r: Retro)
    ensures Toggle(Toggle(r)).active == r.active
    ensures Toggle(Toggle(r)).stored == Some(StoredForm(r.active))
    ensures Shown(r) ==> Toggle(Toggle(r)) == r.(stored := Some(StoredForm(r.active)))
  {
  }

}
