/** The palette editor's client-side state: the palette being edited, the single-slot
    draft of the colour under edit, and whether the colour editor dialog is open.

    Each handler below applies the state updates its source handler makes. The two
    effects that couple the draft and the dialog flag are methods of their own,
    because they run after a handler has finished, not in the middle of it; the event
    methods here and in EditorModalState call them in that order. */
module EditorState {
  import opened Types
  import opened PaletteLists

  class Editor {
    var palette: Palette
    /** `editedColor`: the draft, or nothing. At most one colour is under edit. */
    var editedColor: Option<Color>
    /** `openEditor`: whether the colour editor dialog is shown. */
    var openEditor: bool

    /** The state between two user events: the dialog is open exactly when there is a
        draft, and the draft is a copy of a colour of the palette (by id). */
    ghost predicate Settled()
      reads this
    {
      (openEditor <==> editedColor.Some?)
      && (editedColor.Some? ==> HasId(palette.colors, editedColor.value.id))
    }

    ghost predicate WithinCapacity()
      reads this
    {
      |palette.colors| <= MaxColors
    }

    ghost predicate UniqueIds()
      reads this
    {
      DistinctIds(palette.colors)
    }

    /** Start from the palette given, or from the default palette built with seven fresh ids;
        no draft, dialog closed. */
    constructor (initial: Option<Palette>, freshIds: seq<string>)
      requires initial.None? ==> |freshIds| == |DefaultValues|
      ensures palette == if initial.Some? then initial.value else DefaultPalette(freshIds)
      ensures editedColor == None && !openEditor
      ensures Settled()
      ensures initial.None? ==> WithinCapacity()
    {
      palette := if initial.Some? then initial.value else DefaultPalette(freshIds);
      editedColor := None;
      openEditor := false;
    }

    /** The add button with its guard: a new colour with the fresh id goes to the head,
        unless the palette already holds MaxColors colours. */
    method AddColor(newId: string) returns (added: bool)
      modifies this`palette
      ensures added <==> |old(palette.colors)| < MaxColors
      ensures palette == old(palette).(colors := PaletteLists.AddColor(old(palette.colors), newId))
      ensures old(WithinCapacity()) ==> WithinCapacity()
      ensures old(UniqueIds()) && !HasId(old(palette.colors), newId) ==> UniqueIds()
      ensures old(Settled()) ==> Settled()
    {
      added := |palette.colors| < MaxColors;
      AddColorKeepsIds(palette.colors, newId);
      palette := palette.(colors := PaletteLists.AddColor(palette.colors, newId));
    }

    /** The title field: only the title changes. */
    method OnTitleChange(title: string)
      modifies this`palette
      ensures palette == old(palette).(title := title)
      ensures old(Settled()) ==> Settled()
    {
      palette := palette.(title := title);
    }

    /** The name field of the dialog: the draft's name changes; the palette does not.
        Without a draft nothing happens. */
    method OnNameChange(name: string)
      modifies this`editedColor
      ensures editedColor == if old(editedColor).Some? then Some(old(editedColor).value.(name := name)) else None
    {
      if editedColor.Some? {
        editedColor := Some(editedColor.value.(name := name));
      }
    }

    /** The colour picker, through the dialog: the draft's value changes; the palette does
        not. Without a draft nothing happens. */
    method OnValueChange(value: string)
      modifies this`editedColor
      ensures editedColor == if old(editedColor).Some? then Some(old(editedColor).value.(value := value)) else None
    {
      if editedColor.Some? {
        editedColor := Some(editedColor.value.(value := value));
      }
    }

    /** Delete: drop every colour whose id is the draft's; without a draft none is dropped. */
    method OnDeleteColor()
      modifies this`palette
      ensures palette == old(palette).(colors := RemoveById(old(palette.colors), DraftId(editedColor)))
      ensures old(WithinCapacity()) ==> WithinCapacity()
      ensures old(UniqueIds()) ==> UniqueIds()
      ensures editedColor.None? ==> palette == old(palette)
    {
      if editedColor.None? {
        RemoveByIdNothingToRemove(palette.colors, None);
      }
      if UniqueIds() {
        RemoveByIdKeepsDistinct(palette.colors, DraftId(editedColor));
      }
      palette := palette.(colors := RemoveById(palette.colors, DraftId(editedColor)));
    }

    /** Done: the draft replaces the colour with its id, in place, and the dialog closes. */
    method OnDoneClicked()
      modifies this`palette, this`openEditor
      ensures palette == old(palette).(colors := ReplaceById(old(palette.colors), editedColor))
      ensures !openEditor
      ensures old(WithinCapacity()) ==> WithinCapacity()
      ensures old(UniqueIds()) ==> UniqueIds()
    {
      if UniqueIds() {
        ReplaceByIdKeepsDistinct(palette.colors, editedColor);
      }
      palette := palette.(colors := ReplaceById(palette.colors, editedColor));
      openEditor := false;
    }

    /** `toggleEditor`: set the dialog flag. */
    method ToggleEditor(open: bool)
      modifies this`openEditor
      ensures openEditor == open
    {
      openEditor := open;
    }

    /** The effect that runs when the draft changes: a draft with the dialog closed opens it. */
    method OpenOnDraft()
      modifies this`openEditor
      ensures openEditor == (old(openEditor) || editedColor.Some?)
    {
      if editedColor.Some? && !openEditor {
        openEditor := true;
      }
    }

    /** The effect that runs when the dialog flag changes: a closed dialog drops the draft. */
    method ClearOnClose()
      modifies this`editedColor
      ensures editedColor == if openEditor then old(editedColor) else None
    {
      if !openEditor {
        editedColor := None;
      }
    }

    /** A click on the colour at index i: it becomes the draft, and then the draft effect
        opens the dialog. The palette is untouched. */
    method SelectColor(i: nat)
      requires i < |palette.colors|
      modifies this`editedColor, this`openEditor
      ensures editedColor == Some(palette.colors[i]) && openEditor
      ensures Settled()
    {
      editedColor := Some(palette.colors[i]);
      OpenOnDraft();
    }
  }
}
