/** The value shapes the editor works on: a colour swatch and an editable palette
    (EditorColor and EditorPalette), and the predicates about ids used throughout. */
module Types {

  datatype Option<+T> = None | Some(value: T)

  /** EditorColor: an id, a display name and a colour value. All three are free text;
      the editor never parses the value. */
  datatype Color = Color(id: string, name: string, value: string)

  /** EditorPalette: the optional database ids of a persisted palette, its title and
      its ordered colours. */
  datatype Palette = Palette(id: Option<string>, userId: Option<string>, title: string, colors: seq<Color>)

  /** Some colour of the list carries this id. */
  predicate HasId(colors: seq<Color>, id: string) {
    exists i :: 0 <= i < |colors| && colors[i].id == id
  }

  /** No two colours of the list share an id. */
  predicate DistinctIds(colors: seq<Color>) {
    forall i, j :: 0 <= i < j < |colors| ==> colors[i].id != colors[j].id
  }

  /** `editedColor?.id`: the id of the draft, or nothing when there is no draft. */
  function DraftId(draft: Option<Color>): Option<string> {
    if draft.Some? then Some(draft.value.id) else None
  }
}
