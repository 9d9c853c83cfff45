/** The autonomous program names shared by both robot programs, the latch
    that reads the choice at autonomous entry, and the closed variant type
    the selected name is dispatched through. */
module Selection {

  import opened Options

  const DefaultAuto: string := "Default"
  const CustomAuto: string := "My Auto"

  /** What a selected name denotes: one of the two known programs, or a
      name neither `switch` knows. */
  datatype Program = DefaultProgram | CustomProgram | Unrecognized(name: string)

  /** The name latched at autonomous entry. The chooser's answer is read
      first and then overwritten by the "Auto Selector" dashboard string,
      which falls back to "Default" when unset; so `chooser` never matters. */
  function Latch(chooser: string, dashboard: Option<string>): (selected: string)
    ensures dashboard.Some? ==> selected == dashboard.value
    ensures dashboard.None? ==> selected == DefaultAuto
  {
    match dashboard
    case Some(name) => name
    case None => DefaultAuto
  }

  /** String dispatch as a Java `switch` on a String does it: by equality. */
  function Classify(name: string): (p: Program)
    ensures p == DefaultProgram <==> name == DefaultAuto
    ensures p == CustomProgram <==> name == CustomAuto
    ensures p.Unrecognized? ==> p.name == name
  {
    if name == CustomAuto then CustomProgram
    else if name == DefaultAuto then DefaultProgram
    else Unrecognized(name)
  }
}
