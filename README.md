# Line editor of emoji-message, in Dafny

This project models the line editor of emoji-message, a page where the user
types a short message one line at a time. Each line has its own font and
size. The model covers app.js's line store and key policy:

- `LINES`, the ordered list of line props (`txt`, `font`, `size`);
- the editable preview element of each line, in the `EDITOR` container;
- `addLine`, with its defaults and its `splice` insertion;
- the Proxy `set` trap that restyles a preview when its line's font or size is assigned;
- `handleTxtChange`, which copies the shown text back into `txt`;
- the keydown handler: Enter splits a line at the caret, and Backspace at
  offset 0 merges a line into a neighbour;
- `getTextBeforeAndAfter`, `String.prototype.trim` and `computeSize`.

Files and modules:

- `text.dfy`, module `JsText`: JavaScript string behaviour used by the editor.
  It covers the caret split with `slice` clamping, `trim` with ECMAScript's
  whitespace set, and `computeSize` together with the reading of the CSS
  length it writes.
- `lines.dfy`, module `LineModel`: the editor state as a value (`Doc`). It
  holds the lines, their previews, and where the caret was last placed. Every
  operation is a function from `Doc` to `Doc` whose contract says what
  changes and what stays the same. Lemmas show that each operation keeps the
  invariant `Inv`. `Inv` says the container mirrors `LINES`, every preview
  carries the font-family and font-size strings app.js writes for its line's
  font and size, the store is never empty, and the caret is in an existing line.
- `session.dfy`, module `EditSession`: sequences of user events. It proves
  that no sequence empties the store, what a merge does to `LINES` as a
  whole, and that Backspace right after Enter rejoins the split line. It
  also works through concrete examples.
- `editor.dfy`, module `LineEditor`: class `Editor`. Its fields `lines` and
  `previews` are updated in place, step by step, in the order app.js uses.
  Each method is proved to end in the state the matching `LineModel`
  function gives, and to keep `Inv`.

Two behaviours of the code are worth stating, since they are easy to get wrong:

- Merging the first line forward puts the target's text first. For
  `["abc", "def"]`, Backspace at offset 0 of line 0 gives `["def abc"]`,
  because app.js:85 builds `` `${nextLine.props.txt} ${after}` ``. See
  `EditSession.MergeFirstForward`.
- Sizes and fonts are not validated. Only the number input's `min` and `max`
  attributes (app.js:121-122) mention 10..60. The trap stores any value, and
  so does the model.

One modelling choice follows from the code as well. Enter and Backspace
read the line's text from its preview element (`evt.target.innerText`),
not from `props.txt`. The two can differ until the next blur, keyup or
paste. So the model keeps the shown text (`Preview.shown`) apart from
`Line.txt`, and `SyncText` copies one into the other.

## Model

| member | source | states |
|---|---|---|
| JsText.SplitAt | app.js:158-161 | the two halves concatenate back to the shown text, and the first is exactly `min(caret, length)` long (`slice` clamps) |
| JsText.Trim | app.js:101 | the result has no whitespace at either end, and the input is whitespace, then the result, then whitespace |
| JsText.TrimSurrounded | app.js:101 | reference characterisation: trimming any whitespace around a text with no whitespace at its ends gives back exactly that text |
| JsText.TrimIdempotent | app.js:101 | trimming an already trimmed text changes nothing |
| JsText.ComputeSize | app.js:48 | the font-size string is decimal digits, led by a minus sign exactly when the size is negative, then `px` |
| JsText.ComputeSizeRoundTrip | app.js:48 | for a size CSS accepts (not negative), the font-size string `size + 'px'` denotes exactly `size` pixels; a negative size gives an invalid font-size |
| JsText.ComputeSizeInjective | app.js:48 | different sizes never render as the same font-size string |
| LineModel.SpliceIn | app.js:131 | `splice(at, 0, x)` clamps `at` to the length, puts `x` there, keeps the prefix and shifts the rest up by one |
| LineModel.SpliceOut | app.js:90 | `splice(i, 1)` drops element `i`, keeps the prefix and shifts the rest down by one |
| LineModel.WithDefaults | app.js:50-55 | a supplied field wins; an omitted `txt`, `font` or `size` becomes `''`, `FONTS[0]` or `24` |
| LineModel.Render | app.js:69-72 | a new preview shows the line's text and its font as font-family; its font-size denotes its size when that size is not negative |
| LineModel.AddLineDoc | app.js:46-134 | the new line goes in at `min(insertAt + 1, length)` in both `LINES` and the container, everything else keeps its order, and the caret goes to the start of the new line |
| LineModel.AddLineKeepsInv | app.js:131-133 | adding a line to any synced store (even the empty one) gives a non-empty synced store with the caret in an existing line |
| LineModel.AssignDoc | app.js:56-59 | the trap stores the value as given; font becomes font-family; size becomes the `computeSize` string, which denotes it when it is not negative; txt changes no style; nothing else changes |
| LineModel.SyncTextDoc | app.js:65-67 | `txt` becomes the shown text; the font, the size and every other line are unchanged |
| LineModel.NativeEditDoc | app.js:71-75 | the browser's own editing of a preview changes only that preview's shown text; `LINES` waits for the next text-change event |
| LineModel.EnterDoc | app.js:94-102 | one more line; the current line keeps the text before the caret (stored and shown); the new line at `idx + 1` holds the trimmed text after the caret in the current font and size; the other lines keep their order; the caret goes to the start of the new line |
| LineModel.EnterKeepsInv | app.js:94-102 | Enter keeps the store's invariant |
| LineModel.MergeTarget | app.js:81 | the target is the line above, or line 1 when the current line is the first; it is never the current line |
| LineModel.MergeText | app.js:84-86 | the target's `txt`, and also its shown text when the removed text is non-empty, become the joined text; no other line changes |
| LineModel.BackspaceDoc | app.js:77-93 | with caret 0 and more than one line, there is one line fewer; the target holds the joined text at its new index; every other line is unchanged and in order; the caret goes to the end of the target. Otherwise nothing changes |
| LineModel.BackspaceKeepsInv | app.js:77-90 | Backspace keeps the invariant; in particular it never removes the last line |
| LineModel.KeyDownDoc | app.js:76-104 | other keys, and a Backspace with caret not 0 or with a single line, change nothing; Enter adds one line; a merging Backspace removes one |
| EditSession.Step | app.js:65-126 | one event keeps the container one to one with `LINES`, and an event for a line not in the store changes nothing |
| EditSession.Run | app.js:65-126 | handling events one after another keeps the container one to one with `LINES` |
| EditSession.StepKeepsInv | app.js:76-131 | every single event keeps the invariant |
| EditSession.RunKeepsInv | app.js:77-131 | no sequence of events ever empties the store, and every preview keeps the font-family and font-size strings written for its line's font and size |
| EditSession.EnterThenBackspace | app.js:81-101 | Backspace at the start of the line Enter just created gives back the original store, with the line's text equal to the text before the caret, then one space and the trimmed text after it (or only the text before, when only whitespace followed); the caret ends up at the end of it |
| EditSession.MergedLines | app.js:80-90 | after a merge, `LINES` is the old list with the target's text joined to the removed line's shown text and the removed line spliced out |
| EditSession.SplitHelloWorld | app.js:94-102 | Enter after "hello" in "hello world" gives "hello" and "world", both in the original font and size |
| EditSession.MergeFirstForward | app.js:80-90 | Backspace at offset 0 of line 0 in `["abc", "def"]` gives `["def abc"]` |
| EditSession.MergeLastBackward | app.js:80-90 | Backspace at offset 0 of line 2 in `["abc", "def", "ghi"]` gives `["abc", "def ghi"]` |
| EditSession.LastLineStays | app.js:77 | with a single line, Backspace changes nothing, whatever the caret |
| LineEditor.Editor.constructor | app.js:136-138 | loading the script leaves exactly one line, "Try Me...", in the default font and size, with the caret at its start |
| LineEditor.Editor.AddLine | app.js:46-134 | in place: the new state is `AddLineDoc` of the old one, and the invariant holds |
| LineEditor.Editor.Assign | app.js:56-59 | in place: the new state is `AssignDoc` of the old one, and the invariant holds |
| LineEditor.Editor.SetFont | app.js:112-114 | the font select's handler assigns the chosen font through the trap |
| LineEditor.Editor.SetSize | app.js:124-126 | the size input's handler assigns the size through the trap, unchecked |
| LineEditor.Editor.SyncText | app.js:65-67 | in place: the new state is `SyncTextDoc` of the old one |
| LineEditor.Editor.NativeEdit | app.js:71-75 | in place: the new state is `NativeEditDoc` of the old one |
| LineEditor.Editor.Enter | app.js:94-102 | in place, in the source's order: the new state is `EnterDoc` of the old one, and the invariant holds |
| LineEditor.Editor.Backspace | app.js:77-93 | in place, in the source's order: the new state is `BackspaceDoc` of the old one, and the invariant holds |
| LineEditor.Editor.KeyDown | app.js:76-104 | in place: the new state is `KeyDownDoc` of the old one, and the invariant holds |

## Left out

- Canvas setup (app.js:5-13): drawing-surface plumbing with no logic.
- `create` (app.js:26-44): a DOM builder. The model keeps only the preview it builds (`Render`) and which handlers it wires.
- `placeCaret` and `getCarrotPosition` (app.js:141-156) use the browser's Selection and Range APIs. The caret offset is a parameter, and the model keeps only which line was focused and whether the caret went to its start or end.
- Caret placement inside the merged text after a Backspace: the source leaves it as a TODO (app.js:92). The model places the caret at the end of the target, as `placeCaret(el)` does.
- The `<select>`/`<input>` elements and the `wrap` element. The container is modelled as the sequence of previews, in the same order as `LINES`.
- Invalid font-size values. The preview's `fontSize` in the model is the string the trap writes, `computeSize(size)`. A browser ignores a negative font-size, both in the style attribute at app.js:72 and in the assignment at app.js:57, and keeps the previous size. The model does not track the size the browser actually displays. `PxValue` returns None for such a string.
- `evt.target.value` arrives as a string for `size` (app.js:125). Sizes are integers in the model, and `computeSize` is modelled as the decimal rendering of an integer.
- JavaScript strings are UTF-16 code units, and caret offsets count them. The model counts Unicode scalar values, so the two differ on characters outside the Basic Multilingual Plane. The whitespace set is the one ECMAScript uses for `trim`, per code point.
- `preventDefault`, event dispatch and the native single-character deletion. A Backspace that does not merge, or any other key, has no effect on `LINES`. The browser's editing of the shown text is one separate operation (`NativeEdit`).
- AddLine: `insertAt` is a natural number. The code only passes the default 0 or `LINES.indexOf(line)` of a line that is present, so it is never negative. `splice` with a negative start is left out.
