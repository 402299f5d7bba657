/** The colour editor dialog. It keeps its own copy of the colour value, which the
    picker and the hex field overwrite (upper-cased) and an effect forwards to the
    editor's draft; its buttons fire the editor's callbacks in a fixed order. */
module EditorModalState {
  import opened Types
  import opened Text
  import opened PaletteLists
  import opened EditorState

  /** The text the name field starts with: the draft's name when it has a character
      other than white space, "Untitled Color" otherwise. Display only. */
  function NameFieldText(name: string): (shown: string)
    ensures (exists i :: 0 <= i < |name| && !IsWhitespace(name[i])) ==> shown == name
    ensures AllWhitespace(name) ==> shown == UntitledColor
  {
    TrimNonEmpty(name);
    if |Trim(name)| > 0 then name else UntitledColor
  }

  class EditorModal {
    /** The editor whose callbacks the dialog was given. */
    const editor: Editor
    /** The dialog's own `color` state. */
    var color: string

    /** While the dialog is shown, the editor is between events, has a draft, and the
        draft's value is the dialog's colour. */
    ghost predicate Valid()
      reads this, editor
    {
      editor.Settled() && editor.editedColor.Some? && editor.editedColor.value.value == color
    }

    /** The dialog is rendered only while there is a draft. Its colour starts as the
        draft's value, as it is (no upper-casing), and the forwarding effect hands that
        same value back to the draft on mount. */
    constructor (editor: Editor)
      requires editor.Settled() && editor.editedColor.Some?
      modifies editor
      ensures this.editor == editor && Valid()
      ensures color == old(editor.editedColor.value.value)
      ensures editor.palette == old(editor.palette)
      ensures editor.editedColor == old(editor.editedColor) && editor.openEditor
    {
      this.editor := editor;
      color := editor.editedColor.value.value;
      new;
      editor.OnValueChange(color);
      editor.OpenOnDraft();
    }

    /** `setColor` followed by the forwarding effect, which runs only when the colour
        actually changed; the editor's draft effect then finds the dialog open. */
    method SetColor(c: string)
      requires Valid()
      modifies this`color, editor`editedColor, editor`openEditor
      ensures Valid() && color == c
      ensures editor.editedColor == Some(old(editor.editedColor.value).(value := c))
      ensures editor.palette == old(editor.palette) && editor.openEditor
    {
      if c != color {
        color := c;
        editor.OnValueChange(color);
        editor.OpenOnDraft();
      }
    }

    /** The colour picker: the picked colour is upper-cased, kept and forwarded. The hex
        field shows the colour upper-cased, which is then the stored colour itself. */
    method OnPickerChange(picked: string)
      requires Valid()
      modifies this`color, editor`editedColor, editor`openEditor
      ensures Valid() && color == ToUpper(picked)
      ensures ToUpper(color) == color
      ensures editor.editedColor == Some(old(editor.editedColor.value).(value := ToUpper(picked)))
      ensures editor.palette == old(editor.palette) && editor.openEditor
    {
      ToUpperIdempotent(picked);
      SetColor(ToUpper(picked));
    }

    /** The hex field: the typed colour is upper-cased, kept and forwarded. Upper-cased
        again for display, it shows exactly what is stored. */
    method OnHexInputChange(typed: string)
      requires Valid()
      modifies this`color, editor`editedColor, editor`openEditor
      ensures Valid() && color == ToUpper(typed)
      ensures ToUpper(color) == color
      ensures editor.editedColor == Some(old(editor.editedColor.value).(value := ToUpper(typed)))
      ensures editor.palette == old(editor.palette) && editor.openEditor
    {
      ToUpperIdempotent(typed);
      SetColor(ToUpper(typed));
    }

    /** The name field: the text goes to the draft as typed, not trimmed. */
    method OnNameInput(text: string)
      requires Valid()
      modifies editor`editedColor, editor`openEditor
      ensures Valid()
      ensures editor.editedColor == Some(old(editor.editedColor.value).(name := text))
      ensures editor.palette == old(editor.palette) && editor.openEditor
    {
      editor.OnNameChange(text);
      editor.OpenOnDraft();
    }

    /** The trash button: delete first, then close; the closed dialog drops the draft. */
    method OnDeleteClick()
      requires Valid()
      modifies editor
      ensures editor.palette == old(editor.palette).(colors := RemoveById(old(editor.palette.colors), Some(old(editor.editedColor.value.id))))
      ensures editor.editedColor == None && !editor.openEditor && editor.Settled()
      ensures old(editor.WithinCapacity()) ==> editor.WithinCapacity()
      ensures old(editor.UniqueIds()) ==> editor.UniqueIds()
    {
      editor.OnDeleteColor();
      editor.ToggleEditor(false);
      editor.ClearOnClose();
    }

    /** Done: close, then commit. The commit reads the draft as it was when the button
        was clicked, so it still happens; then the closed dialog drops the draft. */
    method OnDoneClick()
      requires Valid()
      modifies editor
      ensures editor.palette == old(editor.palette).(colors := ReplaceById(old(editor.palette.colors), old(editor.editedColor)))
      ensures editor.editedColor == None && !editor.openEditor && editor.Settled()
      ensures old(editor.WithinCapacity()) ==> editor.WithinCapacity()
      ensures old(editor.UniqueIds()) ==> editor.UniqueIds()
    {
      editor.ToggleEditor(false);
      editor.OnDoneClicked();
      editor.ClearOnClose();
    }

    /** Cancel (and closing the dialog any other way): only close. The palette is not
        touched and the draft is discarded. */
    method OnCancelClick()
      requires Valid()
      modifies editor
      ensures editor.palette == old(editor.palette)
      ensures editor.editedColor == None && !editor.openEditor && editor.Settled()
    {
      editor.ToggleEditor(false);
      editor.ClearOnClose();
    }
  }

  /** A whole edit that ends with Done: select the colour at index k, type a name, pick a
      colour. The colour keeps its index and id and takes the typed name and the
      upper-cased pick; nothing else in the palette changes. */
  method EditAndCommit(p: Palette, k: nat, name: string, picked: string) returns (after: Palette)
    requires k < |p.colors| && DistinctIds(p.colors)
    ensures after == p.(colors := p.colors[k := Color(p.colors[k].id, name, ToUpper(picked))])
  {
    var editor := new Editor(Some(p), []);
    editor.SelectColor(k);
    var dialog := new EditorModal(editor);
    dialog.OnNameInput(name);
    dialog.OnPickerChange(picked);
    dialog.OnDoneClick();
    ReplaceByIdAt(p.colors, k, Color(p.colors[k].id, name, ToUpper(picked)));
    after := editor.palette;
  }

  /** The same edit ended with Cancel leaves the palette exactly as it was. */
  method EditAndCancel(p: Palette, k: nat, name: string, picked: string) returns (after: Palette)
    requires k < |p.colors|
    ensures after == p
  {
    var editor := new Editor(Some(p), []);
    editor.SelectColor(k);
    var dialog := new EditorModal(editor);
    dialog.OnNameInput(name);
    dialog.OnPickerChange(picked);
    dialog.OnCancelClick();
    after := editor.palette;
  }

  /** Selecting the colour at index k and deleting it removes that colour alone, and
      the others keep their order. */
  method SelectAndDelete(p: Palette, k: nat) returns (after: Palette)
    requires k < |p.colors| && DistinctIds(p.colors)
    ensures after == p.(colors := p.colors[..k] + p.colors[k + 1..])
  {
    var editor := new Editor(Some(p), []);
    editor.SelectColor(k);
    var dialog := new EditorModal(editor);
    dialog.OnDeleteClick();
    RemoveByIdAt(p.colors, k);
    after := editor.palette;
  }

  /** Clicking add twice on a fresh editor: the second new colour comes first, the first
      second, and the seven default colours follow. */
  method AddTwice(freshIds: seq<string>, a: string, b: string) returns (after: Palette)
    requires |freshIds| == |DefaultValues|
    ensures |after.colors| == 9
    ensures after.colors[0] == NewColor(b) && after.colors[1] == NewColor(a)
    ensures after.colors[2..] == DefaultPalette(freshIds).colors
  {
    var editor := new Editor(None, freshIds);
    var first := editor.AddColor(a);
    var second := editor.AddColor(b);
    after := editor.palette;
    assert after.colors[1..] == [NewColor(a)] + DefaultPalette(freshIds).colors;
  }
}
