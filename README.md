# Palette editor: a Dafny model

This project models the client-side core of a colour palette editor. A palette has a
title and an ordered list of up to ten colours. Each colour has an id, a name and a
value. The user adds colours at the head of the list and renames the palette. To edit a
colour, the user selects it, which copies it into a single-slot draft and opens a
dialog. In the dialog the user changes the draft's name and its (upper-cased) value.
The edit then ends in one of three ways:

- Done writes the draft back over the colour with the same id.
- Cancel discards the draft.
- Delete removes every colour with the draft's id.

The palette can be exported as text, one `slug: value` line per colour. The form
validators for username, password and name are modelled too.

Modules:

- `Types` (types.dfy): `Color` and `Palette`, the shapes of `EditorColor` and
  `EditorPalette`, and the id predicates `HasId` and `DistinctIds`.
- `PaletteLists` (palette_lists.dfy): the new lists the editor computes, as pure
  functions with lemmas. These are the default palette, the guarded head insertion, the
  id-keyed filter of a delete and the id-keyed map of a commit.
- `EditorState` (editor.dfy): the class `Editor`, with the fields `palette`,
  `editedColor` and `openEditor`. It has one method per handler and one per effect.
  `Settled()` is the invariant that holds between user events: the dialog is open exactly
  when there is a draft, and the draft's id is in the palette.
- `EditorModalState` (editor_modal.dfy): the class `EditorModal`, the dialog with its own
  `color` state. Its `Valid()` says that the draft's value equals the dialog's colour,
  which the forwarding effect keeps true. The file also holds whole edit sessions
  (`EditAndCommit`, `EditAndCancel`, `SelectAndDelete`, `AddTwice`) proved from the
  methods' contracts.
- `Export` (export.dfy): the slug, the copied text and the displayed line.
- `Text` (text.dfy): the JavaScript string operations used: ASCII case mapping, `trim`,
  a replace with a one-character pattern (first occurrence only), `join`, `split`.
- `Validators` (validators.dfy): the three validators, with the username pattern matched
  exactly as written.

How event order is modelled: a handler's state updates run first. The effects that
couple the draft and the dialog flag (app/components/Editor.tsx:68-78) run after it.
The dialog's Done button calls `setOpen(false)` before `onDoneClicked()`, and the commit
still sees the draft. The model gets this by calling `ToggleEditor(false)`, then
`OnDoneClicked()`, then the `ClearOnClose` effect.

## Behaviour as implemented

The editor behaves as follows, and the model does the same:

- There is no colour normaliser. Values are opaque strings. The only transformation is
  the upper-casing of picker and hex-field input in the dialog. The value passed in when
  the dialog opens is forwarded unchanged.
- The copied export text keeps each value as stored, so "Deep Sea" with "#abc123" is
  copied as `deep-sea: #abc123`. Only the displayed line upper-cases the value.
- The slug turns only the first space into a hyphen, so "Deep Sea Blue" becomes
  `deep-sea blue`.
- Adding at the limit is not an error. The add button is disabled from ten colours on,
  and the model's `AddColor` then returns `false` and leaves the list unchanged.
- Name and value edits without a draft are silent no-ops, not errors. So is a delete
  without a draft, because the filter compares ids against `undefined`.

## Model

| member | source | states |
|---|---|---|
| PaletteLists.DefaultPalette | app/components/Editor.tsx:15-27 | The default palette is titled "Untitled Palette" and has seven "Untitled Color" colours with the listed values and the given ids, in order. Distinct ids give distinct colour ids. |
| PaletteLists.AddColor | app/components/Editor.tsx:33-35 | Below ten colours, the new colour ("Untitled Color", "#7AD7F3", the fresh id) is at index 0, followed by the old list unchanged, and the length grows by one. At ten or more colours the list is unchanged. The bound of ten is kept. |
| PaletteLists.AddColorKeepsIds | app/components/Editor.tsx:33-35 | Every id of the old list is still present after an add, and a fresh id keeps ids pairwise distinct. |
| PaletteLists.AddColorsBounded | app/components/Editor.tsx:101 | After any number of add clicks, a list that starts with at most ten colours has exactly min(old length + clicks, 10) colours. |
| PaletteLists.RemoveById | app/components/Editor.tsx:53-55 | The filter result is no longer than the list. |
| PaletteLists.RemoveByIdSound | app/components/Editor.tsx:54 | Every kept colour comes from the list and does not carry the draft's id. |
| PaletteLists.RemoveByIdAppend | app/components/Editor.tsx:54 | The filter distributes over concatenation, so kept colours keep their relative order. |
| PaletteLists.RemoveByIdCount | app/components/Editor.tsx:54 | Each colour without the target id is kept as many times as it occurs. Each colour with it is dropped. |
| PaletteLists.RemoveByIdNothingToRemove | app/components/Editor.tsx:54 | With no draft (id undefined), or with no colour carrying the id, the list is returned unchanged. |
| PaletteLists.RemoveByIdIdempotent | app/components/Editor.tsx:53-55 | Deleting twice with the same id is the same as deleting once. |
| PaletteLists.RemoveByIdKeepsDistinct | app/components/Editor.tsx:54 | A delete keeps ids pairwise distinct. |
| PaletteLists.RemoveByIdAt | app/components/Editor.tsx:54 | With distinct ids, deleting by the id of colors[k] gives exactly colors[..k] + colors[k+1..]. |
| PaletteLists.ReplaceById | app/components/Editor.tsx:57-63 | The commit keeps the length and the id at each index. The element whose id matches becomes the draft. Every other element, and every element when there is no draft, is unchanged. |
| PaletteLists.ReplaceByIdNoMatch | app/components/Editor.tsx:58-63 | When no colour has the draft's id, or there is no draft, the list is unchanged. |
| PaletteLists.ReplaceByIdAt | app/components/Editor.tsx:58-63 | With distinct ids, committing a draft whose id is at index k is colors[k := draft]. This is replacement in place. |
| PaletteLists.ReplaceByIdKeepsDistinct | app/components/Editor.tsx:58-63 | A commit keeps ids distinct and keeps the set of ids present. |
| PaletteLists.ReplaceByIdIdempotent | app/components/Editor.tsx:58-63 | Committing the same draft twice is the same as committing it once. |
| PaletteLists.ReplaceByIdUnedited | app/components/Editor.tsx:58-63 | Committing an unedited copy of a colour changes nothing. |
| EditorState.Editor.constructor | app/components/Editor.tsx:15-30 | The editor starts from the given palette, or from the default one. It has no draft and the dialog is closed. The default palette is within the bound. |
| EditorState.Editor.AddColor | app/components/Editor.tsx:33-35 | Returns whether the button was enabled (fewer than ten colours) and sets the colours to the guarded head insertion. It keeps the bound, unique ids for a fresh id, and the settled invariant. |
| EditorState.Editor.OnTitleChange | app/components/Editor.tsx:37-39 | Only the title changes. The colours are untouched. |
| EditorState.Editor.OnNameChange | app/components/Editor.tsx:41-45 | Only the draft's name changes. With no draft this is a no-op. The palette is not in the frame. |
| EditorState.Editor.OnValueChange | app/components/Editor.tsx:47-51 | Only the draft's value changes. With no draft this is a no-op. The palette is not in the frame. |
| EditorState.Editor.OnDeleteColor | app/components/Editor.tsx:53-55 | The colours become the filter by the draft's id. With no draft they are unchanged. The bound and unique ids are kept. |
| EditorState.Editor.OnDoneClicked | app/components/Editor.tsx:57-66 | The colours become the id-keyed replacement by the draft, and the dialog flag is cleared. The bound and unique ids are kept. |
| EditorState.Editor.ToggleEditor | app/components/Editor.tsx:30 | Sets the dialog flag. |
| EditorState.Editor.OpenOnDraft | app/components/Editor.tsx:68-72 | A draft with the dialog closed opens the dialog. Otherwise the flag is unchanged. |
| EditorState.Editor.ClearOnClose | app/components/Editor.tsx:74-78 | A closed dialog clears the draft. An open one keeps it. |
| EditorState.Editor.SelectColor | app/components/Editor.tsx:133 | The selected colour becomes the only draft and the dialog opens. The palette is untouched and the state is settled. |
| EditorModalState.NameFieldText | app/components/modal/EditorModal.tsx:80 | The name field shows the name when it has a character that is not whitespace, and "Untitled Color" when it is all whitespace. This is display only. |
| EditorModalState.EditorModal.constructor | app/components/modal/EditorModal.tsx:30-48 | On mount, the dialog's colour equals the draft's value, not upper-cased. Forwarding it leaves the draft and palette unchanged, and the dialog is open. |
| EditorModalState.EditorModal.SetColor | app/components/modal/EditorModal.tsx:46-48 | The local colour and the draft's value both become the new colour. The palette is unchanged and the synchronisation invariant is kept. |
| EditorModalState.EditorModal.OnPickerChange | app/components/modal/EditorModal.tsx:91 | The picked colour is upper-cased, stored locally and forwarded to the draft. The stored colour is its own upper-case form, so the hex field shows it unchanged. Nothing else changes. |
| EditorModalState.EditorModal.OnHexInputChange | app/components/modal/EditorModal.tsx:96 | The typed colour is upper-cased, stored locally and forwarded to the draft. The stored colour is its own upper-case form, so the hex field shows it unchanged. Nothing else changes. |
| EditorModalState.EditorModal.OnNameInput | app/components/modal/EditorModal.tsx:79 | The name is forwarded to the draft verbatim, with no trimming. The palette is unchanged. |
| EditorModalState.EditorModal.OnDeleteClick | app/components/modal/EditorModal.tsx:84-87 | Delete runs first, then close. The colours lose the draft's id, the draft is gone and the dialog is closed. |
| EditorModalState.EditorModal.OnDoneClick | app/components/modal/EditorModal.tsx:108-111 | Close runs first, then commit. The colours become the replacement by the draft as it was on the click, the draft is gone and the dialog is closed. |
| EditorModalState.EditorModal.OnCancelClick | app/components/modal/EditorModal.tsx:115-119 | Only close: the palette is unchanged and the draft is discarded. |
| EditorModalState.EditAndCommit | app/components/modal/EditorModal.tsx:108-111 | Select k, type a name, pick a colour, then Done. The colour at k keeps its id and index and takes the name and the upper-cased pick. Nothing else changes. |
| EditorModalState.EditAndCancel | app/components/modal/EditorModal.tsx:115-119 | The same session ended by Cancel leaves the palette exactly as before. |
| EditorModalState.SelectAndDelete | app/components/modal/EditorModal.tsx:84-87 | Selecting k and deleting removes exactly that colour. The rest keep their order. |
| EditorModalState.AddTwice | app/components/Editor.tsx:33-35 | Two adds on a fresh editor give nine colours: the second new colour, then the first, then the seven defaults. |
| Text.ReplaceFirst | app/components/modal/ExportModal.tsx:31 | The length is kept. Position i becomes the replacement exactly when it holds the first occurrence of the pattern character. Every other character is kept. |
| Text.TrimNonEmpty | app/components/modal/EditorModal.tsx:80 | `trim()` leaves a non-empty string exactly when some character is not whitespace. |
| Text.ToUpperIdempotent | app/components/modal/EditorModal.tsx:91-96 | Upper-casing an already upper-cased colour changes nothing. The picker and hex-field handlers use it to show that the field's `color.toUpperCase()` displays the stored colour unchanged. |
| Text.SplitJoin | app/components/modal/ExportModal.tsx:31 | Splitting a "\n"-join of newline-free pieces gives the pieces back. |
| Export.Slug | app/components/modal/ExportModal.tsx:31 | The slug has the name's length. Each character is lower-cased, except the first space, which becomes "-". Later spaces stay. |
| Export.SlugWithoutSpace | app/components/modal/ExportModal.tsx:31 | A name without a space is only lower-cased. |
| Export.SlugDeepSeaBlue | app/components/modal/ExportModal.tsx:31 | "Deep Sea Blue" becomes "deep-sea blue". |
| Export.ExportLine | app/components/modal/ExportModal.tsx:31 | A line is the slug, then ": ", then the value verbatim (not upper-cased, with `#` kept). |
| Export.ExportLines | app/components/modal/ExportModal.tsx:31 | There is one line per colour, in list order. |
| Export.ExportColors | app/components/modal/ExportModal.tsx:30-32 | An empty list gives "". A single colour gives its line with no newline. |
| Export.ExportSplitsIntoLines | app/components/modal/ExportModal.tsx:31 | For a non-empty list without line breaks, the copied text splits on "\n" into exactly the colours' lines, in order. There is no trailing newline. |
| Export.ExportDeepSea | app/components/modal/ExportModal.tsx:31 | "Deep Sea" with "#abc123" is copied as "deep-sea: #abc123". |
| Export.DisplayLine | app/components/modal/ExportModal.tsx:78 | The displayed line has the same length and the same slug and ": " prefix as the copied line, and ends in the value upper-cased. |
| Export.DisplayMatchesExport | app/components/modal/ExportModal.tsx:78 | The displayed and copied lines are equal exactly when the value is already upper case. |
| Export.DefaultColorShownDifferently | app/components/modal/ExportModal.tsx:78 | The first default colour, "#4cc9f0", is displayed differently from how it is copied. |
| Validators.SearchFrom | app/lib/validators.server.ts:6-7 | The left-to-right search finds a match exactly when the pattern matches at some start position from i on. |
| Validators.ValidateUsername | app/lib/validators.server.ts:1-11 | Returns the length error exactly when the length is under 3, and this check comes first. Otherwise returns the "alphanumeric" error exactly when the pattern matches somewhere, and nothing when it does not. |
| Validators.MatchIsTrailingRun | app/lib/validators.server.ts:6 | Wherever the pattern matches, the closing brackets after the literal text are the whole run of brackets at the end of the string. |
| Validators.MatchCharacterised | app/lib/validators.server.ts:6 | The pattern matches exactly when the string ends in one or more "]" and, with those removed, ends in the literal text "a-zA-Z0-9". |
| Validators.UsernameWithSymbolAccepted | app/lib/validators.server.ts:6-9 | "bob!" gets no error. |
| Validators.UsernameLiteralRefused | app/lib/validators.server.ts:6-9 | "xa-zA-Z0-9]]" gets the "alphanumeric" error. |
| Validators.UsernameCheckDisagrees | app/lib/validators.server.ts:6-9 | On "bob!" the check as written returns nothing, while the intended check returns the "alphanumeric" error. |
| Validators.ValidateUsernameIntended | app/lib/validators.server.ts:1-11 | The intended check returns the length error exactly when the length is under 3. Otherwise it returns the "alphanumeric" error exactly when some character is outside a-z, A-Z and 0-9. |
| Validators.ValidatePassword | app/lib/validators.server.ts:13-17 | Returns the password error exactly when the length is under 8, and nothing otherwise. |
| Validators.ValidateName | app/lib/validators.server.ts:19-21 | Returns "Please enter a value" exactly when the name is empty. A whitespace-only name passes. |

## Findings

| source | as written | input that shows it | evidently intended | confidence | as-written member | corrected member |
|---|---|---|---|---|---|---|
| app/lib/validators.server.ts:6-9 | The pattern `a-zA-Z0-9]+$` has no `[`, so it has no character class. It matches only the literal text "a-zA-Z0-9" followed by "]"s at the end, and a match is what triggers the error. | "bob!" is accepted, and "xa-zA-Z0-9]]" is refused. | Refuse every username with a character outside a-z, A-Z and 0-9, as the error message says. | not executed; high | Validators.UsernameCheckDisagrees | Validators.ValidateUsernameIntended |

## Left out

- Rendering, Tailwind classes, dialog transitions, toasts and clipboard copying are user interface and I/O, so they are not modelled. Export is modelled as the text that would be copied.
- The export dialog's open flag (`openExport`, app/components/Editor.tsx:31, 110, 160) only controls visibility, so it is not modelled.
- Id generation is not modelled. `uuidv4` ids arrive as parameters (`freshIds`, `newId`). Freshness is a hypothesis where a contract needs it.
- React's scheduling is not modelled. Each event is a handler followed by the effects whose dependencies it changed, in one order. Dependencies are compared by value. React compares the draft object by identity, which gives the same states here.
- Case mapping covers only ASCII letters. JavaScript's `toLowerCase` and `toUpperCase` also map other letters, some of them to more than one character.
- String lengths are counted in Unicode scalar values. JavaScript counts UTF-16 code units, which differs for characters outside the Basic Multilingual Plane.
- The hex parsing inside the `HexColorPicker` and `HexColorInput` library components is not modelled, because that library is not part of this model. Incoming colours are arbitrary strings.
- The dialog props' fallbacks "Untitled Palette" and "#FFFFFF" (app/components/Editor.tsx:151, 153) are not modelled, because they apply only when there is no draft, and the dialog is rendered only when there is one.
- EditorState.Editor.SelectColor does not model selecting another colour while the dialog is open. The model allows the call but does not remount the dialog, and the dialog's overlay prevents that click in the application.
- EditorState.Editor.constructor takes a loaded palette as given. Nothing checks its length or ids, so the bound and unique ids are promised only for palettes that start with them.
- app/lib/auth.server.ts and app/lib/user.server.ts (sessions, database queries, password hashing) and the route loaders and actions in app/routes are I/O and are not part of this model. That includes how the routes combine validator results.
- The palette's `id` and `userId` are carried along but never used by the editor.
