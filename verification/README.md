# Placeholder widget and source-editing toggle

A Dafny model of the two editor plugins in this repository:

- **Placeholder widget** (`PlaceholderEditing`): the model element
  `placeholder` with its `name` attribute, the view markup
  `<span class="placeholder">{{ name }}</span>`, and the three converters
  between them. The downcast helper renders the name as
  `'{{ ' + name + ' }}'` (`Encode`). The upcast recovers it with the
  JavaScript `slice(3, -3)` (`Decode`), modelled in `JsString.Slice` with
  the clamping rules of `String.prototype.slice` in the ECMAScript language
  specification. The decoder does not check the delimiters. The
  upcast throws when the span has no text as its first child: reading
  `.data` gives `undefined`. An element without a `name` is rendered with
  the text `undefined`, as JavaScript string concatenation does.
- **Source editing** (`SourceEditing`): a two-state toggle. The state
  keeps the `isSourceEditingMode` flag and the editing view's DOM root
  names. It keeps the host's data of each root and the `_replacedRoots`
  record, which maps a root name to its wrapper's `data-value`. It also
  keeps the force-disable tokens of each command, the pending-actions
  count, and whether the handler was attached at `init` (the editable
  exists and has no external element). The operations are pure
  transitions: `Execute` (the button listener together with the
  `sourceEditing` handler), `Press` (a click, gated by the button's
  enablement), `Input`, `ShowSourceEditing`, `HideSourceEditing`,
  `DisableCommands` and `EnableCommands`.

The host's data API appears only as what the plugin reads and writes.
The state holds what `data.get` returns for each root. The host's
serialiser is an unknown function `normalize` carried in the state. After
`data.set` of a root with `x`, `data.get` of that root returns
`normalize(x)`. Setting one root does not change what the others return.
So the properties about writing back are stated about the string the
plugin passes to `data.set`. The root's data afterwards is that string
normalised. Full restoration of the state is proved only for roots whose
data the serialiser returns unchanged.

Files: `wrappers.dfy` (Option), `jsstring.dfy` (JavaScript string
behaviour), `placeholder.dfy`, `sourceediting.dfy`.

Two consequences of the code worth stating plainly:

- The view round trip holds for every name, including names that
  contain `{{` or `}}`.
- Only the button's `execute` fires `sourceEditing`. Assigning
  `isSourceEditingMode` directly only flips the flag.

## Model

| member | source | states |
|---|---|---|
| JsString.Slice | packages/ckeditor5-build-classic/src/placeholder/placeholderediting.js:62 | `slice` yields the characters from the resolved start to the resolved end, or the empty string when the end is not after the start |
| JsString.ResolvePosition | packages/ckeditor5-build-classic/src/placeholder/placeholderediting.js:62 | a slice position is clamped into `[0, len]`; a negative one counts from the end and stops at 0 |
| JsString.SliceInRange | packages/ckeditor5-build-classic/src/placeholder/placeholderediting.js:62 | with in-range, ordered positions `slice` is the plain subsequence |
| JsString.SliceNegativeEnd | packages/ckeditor5-build-classic/src/placeholder/placeholderediting.js:62 | a negative end `-k` cuts `k` characters off the end |
| JsString.ToJsString | packages/ckeditor5-build-classic/src/placeholder/placeholderediting.js:85-94 | a missing `name` attribute concatenates as `undefined`; a string is kept as is |
| PlaceholderEditing.Encode | packages/ckeditor5-build-classic/src/placeholder/placeholderediting.js:94 | the inner text has length `|name| + 6`, starts with `{{ `, ends with ` }}` and holds the name in between |
| PlaceholderEditing.Decode | packages/ckeditor5-build-classic/src/placeholder/placeholderediting.js:62 | text of length at least 6 decodes to everything but its outer three characters on each side, whatever they are; text of length at most 6 decodes to the empty string |
| PlaceholderEditing.DecodeEncode | packages/ckeditor5-build-classic/src/placeholder/placeholderediting.js:62-94 | decoding the encoding of any name gives the name back, even when it contains `{{` or `}}` |
| PlaceholderEditing.EncodeInjective | packages/ckeditor5-build-classic/src/placeholder/placeholderediting.js:94 | two names have the same encoding if and only if they are equal |
| PlaceholderEditing.EncodeDecode | packages/ckeditor5-build-classic/src/placeholder/placeholderediting.js:62 | re-encoding a decoded text reproduces it if and only if the text carries both delimiters |
| PlaceholderEditing.CreatePlaceholderView | packages/ckeditor5-build-classic/src/placeholder/placeholderediting.js:84-98 | the shared downcast view is a `span` with exactly the class `placeholder`. It has one text child, and that child decodes to the element's name as concatenation renders it |
| PlaceholderEditing.ToWidget | packages/ckeditor5-build-classic/src/placeholder/placeholderediting.js:73-74 | marking a view as a widget keeps its tag, classes and children |
| PlaceholderEditing.EditingDowncast | packages/ckeditor5-build-classic/src/placeholder/placeholderediting.js:68-76 | the editing downcast yields a widget element |
| PlaceholderEditing.DataDowncast | packages/ckeditor5-build-classic/src/placeholder/placeholderediting.js:78-81 | the data downcast yields an element that is not a widget |
| PlaceholderEditing.Upcast | packages/ckeditor5-build-classic/src/placeholder/placeholderediting.js:55-66 | a view that is not a `span` with the class `placeholder` is not converted; a matching span without a leading text child throws; otherwise the new element's name is the decoded text of the first child |
| PlaceholderEditing.UpcastDowncast | packages/ckeditor5-build-classic/src/placeholder/placeholderediting.js:60-98 | upcasting either downcast's view creates a placeholder carrying the rendered name. When the name was set, that is the original element |
| PlaceholderEditing.DowncastUpcast | packages/ckeditor5-build-classic/src/placeholder/placeholderediting.js:55-98 | well-formed placeholder markup survives upcast then data downcast unchanged, and the data downcast always yields well-formed markup |
| PlaceholderEditing.DowncastsAgree | packages/ckeditor5-build-classic/src/placeholder/placeholderediting.js:68-81 | the two downcasts build the same span, class and text; only the editing one is a widget |
| SourceEditing.IsAllowedToHandleSourceEditingMode | packages/ckeditor5-source-editing/src/sourceediting.js:144-149 | the handler is attached if and only if an editable exists and has no external element |
| SourceEditing.Init | packages/ckeditor5-source-editing/src/sourceediting.js:21-31 | the plugin starts with the mode off and nothing replaced, and satisfies the bookkeeping invariant |
| SourceEditing.ShowRoots | packages/ckeditor5-source-editing/src/sourceediting.js:77-104 | after the loop each visited root holds what the host returns for an empty string and its wrapper holds the data read before; unvisited roots and records keep their values |
| SourceEditing.ShowSourceEditing | packages/ckeditor5-source-editing/src/sourceediting.js:73-105 | the record gains exactly the DOM roots, each holding what `data.get` returned for the root; each root is set to the empty string, which the host returns normalised; other roots and fields are untouched |
| SourceEditing.HideSourceEditing | packages/ckeditor5-source-editing/src/sourceediting.js:107-126 | each recorded root is set to its wrapper's current value, which the host returns normalised; the record becomes empty; roots not recorded keep their data |
| SourceEditing.DisableCommands | packages/ckeditor5-source-editing/src/sourceediting.js:128-134 | every command gains the `SourceEditingMode` token and keeps all its other tokens |
| SourceEditing.EnableCommands | packages/ckeditor5-source-editing/src/sourceediting.js:136-142 | every command loses only the `SourceEditingMode` token |
| SourceEditing.EnableUndoesDisable | packages/ckeditor5-source-editing/src/sourceediting.js:128-142 | when no command carried the token before, enabling after disabling restores every command's tokens |
| SourceEditing.Execute | packages/ckeditor5-source-editing/src/sourceediting.js:51-70 | each execute flips the flag. When the handler is not attached, nothing else changes. The bookkeeping invariant is preserved: while active every root is replaced and every command carries the token, otherwise neither |
| SourceEditing.Press | packages/ckeditor5-source-editing/src/sourceediting.js:49-55 | a click toggles the mode if and only if no action is pending; enablement does not depend on the mode |
| SourceEditing.Input | packages/ckeditor5-source-editing/src/sourceediting.js:91-93 | an input event sets only that root's wrapper value; no root's data changes |
| SourceEditing.AddPendingAction | packages/ckeditor5-source-editing/src/sourceediting.js:49 | with an action pending the button is disabled |
| SourceEditing.RemovePendingAction | packages/ckeditor5-source-editing/src/sourceediting.js:49 | the button is enabled again exactly when the last pending action is removed |
| SourceEditing.ApplyInputs | packages/ckeditor5-source-editing/src/sourceediting.js:91-93 | after a series of input events each wrapper holds the last text typed for its root, and the data is unchanged |
| SourceEditing.ShowReplacesEachRoot | packages/ckeditor5-source-editing/src/sourceediting.js:77-104 | turning the mode on with N roots records exactly N replacements, each holding its root's data, and adds the token to every command |
| SourceEditing.ToggleOnOffKeepsBookkeeping | packages/ckeditor5-source-editing/src/sourceediting.js:51-70 | on then straight off changes nothing but the data: nothing stays replaced and every command has its own tokens again |
| SourceEditing.ToggleOnOffWritesBackData | packages/ckeditor5-source-editing/src/sourceediting.js:77-123 | on then straight off passes each root exactly the string read from it, so the root ends with that string normalised; other roots keep their data |
| SourceEditing.ToggleOnOffRestores | packages/ckeditor5-source-editing/src/sourceediting.js:51-123 | with no edits, on then straight off writes back to each root exactly the string read before activation, leaves everything but the data as it was, and leaves each root holding the normalised string |
| SourceEditing.ToggleOnOffIsIdentity | packages/ckeditor5-source-editing/src/sourceediting.js:51-123 | when the serialiser returns each root's data unchanged, on then straight off restores the whole state |
| SourceEditing.EditsAreWrittenBack | packages/ckeditor5-source-editing/src/sourceediting.js:91-123 | turning the mode off after edits writes each root's last edited value back, so the root holds it normalised; other roots are left alone and only the plugin's token is removed |

## Left out

- DOM construction and replacement are not modelled because they are browser I/O. This covers the textarea and wrapper elements, the `ElementReplacer`, the `ck-hidden` class toggled through `editingView.change`, and `editor.focus()`. Only the bookkeeping they leave behind is modelled.
- The host serialiser behind `editor.data.get` and `editor.data.set` is an unknown function `normalize`. It is assumed deterministic and per root, but nothing else about how it parses or normalises source text is assumed.
- PlaceholderEditing.Decode: a string is modelled as a sequence of Unicode scalar values, not of UTF-16 code units as JavaScript counts them. So for text with characters outside the Basic Multilingual Plane within three code units of either end, the model slices at different places than the source, which can split a surrogate pair.
- JsString.Slice: positions count Unicode scalar values, not UTF-16 code units, for the same reason.
- `ButtonView`, its label and tooltip, localisation with `t(...)` and the component factory are UI and are not modelled. Only the enablement gating of a click is kept, as `Press`.
- `PlaceholderEditing.ToWidget`: it marks the view as a widget and nothing more. The extra class, attributes and selection handling that the widget library's `toWidget` adds are not modelled, because that library is not part of this model.
- Schema registration, the `image` schema extension, the `viewToModelPosition` mapper hook and the `placeholderConfig` default are not modelled. They only configure foreign libraries.
- The placeholder insertion command is not modelled, because `placeholdercommand.js` is not part of this model.
- The `sourceEditing` event is modelled only through the plugin's own handler. Other listeners, the observable binding of the button's `isOn`, and the event loop are left out. Each handler is one atomic step.
- Commands registered after `init` are not modelled. The command collection is fixed when the state is built.
- The model attribute `name` is taken to be a string or absent. Other values are not modelled, such as a number or `null` (which renders as `null`).
