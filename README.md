# canvas-input in Dafny

A model of `CanvasInput`, a text-input widget drawn on an HTML canvas. It
covers the widget's whole behaviour:

- hit-testing and the mouse-hover cursor;
- click-to-select;
- key presses: typing one character, Backspace, Enter and the arrow keys;
- the two loops that move the overflow offset (the number of leading
  characters hidden when the text is wider than the input);
- repositioning;
- the caret's pixel position;
- the order of the drawing commands issued by `render`.

The model is split into four modules:

- `js_string.dfy` (`JsString`): JavaScript's `String.prototype.substr` with
  its clamping rules, and the JavaScript `length` of a string. The widget
  depends on the clamping: a negative length gives `""`, and a start past
  the end gives `""`. A JavaScript `length` counts UTF-16 code units, so a
  character outside the Basic Multilingual Plane (above U+FFFF) counts as
  two; `Utf16Length` models that count.
- `overflow.dfy` (`Overflow`): the forward scroll used when a typed
  character does not fit, and the backward un-scroll after a backspace.
  Each is a recursive function whose contract is the loop's exit condition
  and the fact that it stops at the first such offset.
- `editing.dfy` (`Editing`): the editing rules as pure functions over the
  state `Input(text, selector, offset, submitted)`, with the lemmas about
  them.
- `canvas_input.dfy` (`CanvasInputWidget`): the `CanvasInput` class. It has
  the configuration as `const` fields and the mutable state as `var`
  fields. Its methods mutate the fields, with the source's `while` loops
  where it has them:
  - the key handlers (`OnKeydown`, `Backspace`, `Enter`, `Arrow`) are proved
    to move the state exactly as the matching `Editing` function does;
  - the two loops (`ScrollToFit`, `Unscroll`) are proved to end at the
    offset the matching `Overflow` function gives;
  - `OnHover`, `OnClick` and `MoveTo` state their new fields directly.

  Hit-testing, the caret position and rendering are functions of the
  fields.

Field names:

| source | model |
|---|---|
| `input_text` | `text` |
| `input_selected` | `selected` |
| `input_selector_pos` | `selectorPos` |
| `text_overflow_offset` | `overflowOffset` |
| `canvas.style.cursor` | `cursor` |
| `input_text_pos.x` | `textPosX` |
| calls of `submit_callback` | `submitted`, oldest first |
| `ctx.measureText(s).width` | `measure(s)` |
| `e.key` | `key` (a string; a JavaScript length `Utf16Length(key) > 1` means a named key) |

The host supplies some inputs, and the model takes them as plain values:

- Text measurement is the function `measure: string -> int`, given at
  construction. Nothing is assumed about it; where a proof needs a fact
  such as `measure(key) <= width` or `measure("") < width`, that fact is a
  precondition.
- Events are method calls carrying the mouse coordinates or the key's
  name.
- Drawing is a list of `DrawCommand`s.
- Whether a submit callback is registered is the flag `hasCallback`.

Where the code behaves differently from what its documentation suggests,
the model follows the code:

- The selector is not always a character index.
  - The constructor sets it to `posX + measure("")`, a pixel value
    (src/js/canvas-input.js:36, :224-230).
  - Enter leaves it at its old value after clearing the text.
  - The validity invariant `Editing.Valid` therefore bounds the selector
    only while the text is non-empty. `Editing.EnterLeavesSelectorStale`
    shows a state in which it is out of range.
- The caret is placed by measuring `text.substr(offset, selector)`, which is
  `selector` characters starting at `offset`, not the slice from `offset`
  to `selector` (:227). `Editing.CaretTextCountsFromOffset` states this
  with an example.
- A typed character is appended at the end of the text, wherever the
  selector is (:144).
- The test for a named key is `key.length > 1` (:121), a count of UTF-16
  code units. A single character outside the Basic Multilingual Plane, such
  as an emoji, has length 2, so it is sent to the named-key lookup, finds
  no handler and is ignored rather than typed (`Editing.NonBmpKeyIgnored`).
  As a consequence the text only ever holds Basic Multilingual Plane
  characters, so its character count `|text|`, which the model uses for
  `input_text.length`, is its JavaScript length (`Editing.KeydownKeepsBmp`).
- Inserting keeps the offset while the width is `<= width` (:133). The
  un-scroll loop continues only while the wider window is strictly
  `< width` (:164).

## Model

| member | source | states |
|---|---|---|
| JsString.Substr | src/js/canvas-input.js:153-154 | `substr` never returns more than the whole string; a start past the end or a length `<= 0` gives `""`; for a start inside the string the result is the slice of at most `length` characters from there; a negative start counts back from the end, clamped to the start of the string |
| JsString.Utf16Length | src/js/canvas-input.js:121 | a string's JavaScript length lies between its character count and twice it |
| JsString.Utf16LengthOfBmp | src/js/canvas-input.js:121 | the JavaScript length equals the character count exactly when every character is inside the Basic Multilingual Plane |
| JsString.SubstrFrom | src/js/canvas-input.js:249 | `substr(start)` with no length is the suffix from `start` (`""` past the end, counted from the end for a negative start) |
| JsString.SubstrFromAppend | src/js/canvas-input.js:133 | for an offset inside the text, the suffix of `text + key` is the suffix of `text` followed by `key` |
| JsString.SpliceOut | src/js/canvas-input.js:153-154 | the backspace splice removes exactly the character at `p - 1` (one character shorter) for `p > 0`, and keeps the whole string for `p == 0` |
| Overflow.FitsPastEnd | src/js/canvas-input.js:138 | at an offset at or past the end of the text only the key itself is measured, so the scroll test succeeds exactly when the key alone fits |
| Overflow.ScrollForward | src/js/canvas-input.js:137-140 | given that the key alone fits (or already fits at the offset), the forward scroll ends; the offset only grows, and not past the text length unless it started past it; the key fits at the result; it does not fit at any offset passed over |
| Overflow.ScrollBack | src/js/canvas-input.js:163-167 | the un-scroll never increases the offset; it stops at 0 or where the one-character-wider window measures `>= width`; every window it opened up measures `< width` |
| Overflow.ScrollBackToStart | src/js/canvas-input.js:163-167 | when every window from the start up to the offset measures `< width`, un-scrolling reaches offset 0 |
| Editing.TypeKeyThatFits | src/js/canvas-input.js:133-145 | a character that fits is appended, the selector becomes the new length and the offset is unchanged |
| Editing.TypeKeyRejected | src/js/canvas-input.js:133-136 | a character that does not fit while overflow is disallowed leaves the state unchanged |
| Editing.TypeKeyScrolls | src/js/canvas-input.js:137-145 | with overflow allowed and a key that fits alone, a key that does not fit is appended, the selector goes to the end, and the offset strictly increases to the FIRST offset where the key fits, and no further than the text length |
| Editing.TypeKeyKeepsVisibleWithinWidth | src/js/canvas-input.js:130-145 | typing keeps the state valid, and an accepted character leaves a visible text `substr(offset)` no wider than `width` |
| Editing.TypingKeepsVisibleWithinWidth | src/js/canvas-input.js:130-145 | over any sequence of typed characters, starting from a valid state whose visible text fits, the state stays valid and the visible text never becomes wider than `width` |
| Editing.TypingHello | src/js/canvas-input.js:130-145 | typing "Hello" into an empty input where it fits gives text "Hello", selector 5, offset 0 |
| Editing.BackspaceOnEmpty | src/js/canvas-input.js:151 | Backspace on an empty text changes nothing |
| Editing.BackspaceErases | src/js/canvas-input.js:148-170 | on a non-empty text, Backspace removes the character at `selector - 1` and decrements the selector; at selector 0 the text is unchanged; the offset never increases and stops at 0 or at the first window measuring `>= width`, every window passed measuring `< width`; nothing is submitted |
| Editing.BackspacePreservesValid | src/js/canvas-input.js:148-170 | Backspace keeps the selector inside a non-empty text, and keeps the offset inside the text when the empty string measures `< width` |
| Editing.BackspacesEmptyTheInput | src/js/canvas-input.js:148-170 | with the selector at the end, one backspace per character leaves the text empty with selector 0 and offset 0 |
| Editing.EnterSubmitsOnce | src/js/canvas-input.js:172-182 | Enter without a callback or on empty text changes nothing; otherwise it appends the text to the submitted log exactly once, clears the text, resets the offset to 0 and leaves the selector as it was; validity is preserved |
| Editing.EnterLeavesSelectorStale | src/js/canvas-input.js:179-181 | after submitting "ab" with the selector at 2, the text is empty and the selector is still 2, outside the text; the caret text is then `""` |
| Editing.ArrowKeepsSelectorInRange | src/js/canvas-input.js:184-198 | the arrow handler keeps `0 <= selector <= len(text)` and validity, never touches text or offset, and does nothing for a key other than ArrowLeft or ArrowRight |
| Editing.ArrowLeftRightInverse | src/js/canvas-input.js:186-196 | away from the ends, ArrowLeft then ArrowRight (and the reverse) returns to the same state |
| Editing.Find | src/js/canvas-input.js:123 | `find` returns nothing exactly when no entry has the key, and otherwise the handler of the first entry with that key |
| Editing.SpecialKeyHandlers | src/js/canvas-input.js:23-30 | Backspace, Enter and the four arrows map to their handlers, and every other name maps to none; only "Backspace" reaches the backspace handler, and only "Enter" the enter handler |
| Editing.KeydownIgnored | src/js/canvas-input.js:115-128 | while not selected every key is ignored; while selected every named key other than Backspace, Enter, ArrowLeft and ArrowRight is ignored |
| Editing.NonBmpKeyIgnored | src/js/canvas-input.js:121-127 | a single character above U+FFFF has JavaScript length 2, and pressing it while selected changes nothing |
| Editing.TypeKeyKeepsBmp | src/js/canvas-input.js:130-145 | typing a key of JavaScript length at most 1 into a Basic Multilingual Plane text keeps it in the plane |
| Editing.SubstrKeepsBmp | src/js/canvas-input.js:153-154 | every `substr` of a Basic Multilingual Plane text stays in the plane |
| Editing.BackspaceKeepsBmp | src/js/canvas-input.js:148-157 | Backspace keeps a Basic Multilingual Plane text in the plane |
| Editing.KeydownKeepsBmp | src/js/canvas-input.js:115-146 | every key press keeps a Basic Multilingual Plane text in the plane, so its JavaScript length stays equal to its character count |
| Editing.KeydownDispatches | src/js/canvas-input.js:121-127 | while selected, Backspace, Enter, ArrowLeft and ArrowRight run their handlers |
| Editing.KeydownPreservesValid | src/js/canvas-input.js:115-198 | every key press keeps the state valid, given that the empty string measures `< width` |
| Editing.CaretTextCountsFromOffset | src/js/canvas-input.js:224-230 | for every state, stale selectors included, the caret text is the `selector` characters starting AT the offset, clamped as `substr` clamps: `text[min(offset, len)..min(offset + max(selector, 0), len)]`; it is `""` for an empty text (after Enter, or in a fresh input whose selector is a pixel value); at offset 0 with an in-range selector it is the prefix of length `selector`; e.g. "bc" for "abcd" at offset 2, selector 1 |
| CanvasInputWidget.InBoxEdges | src/js/canvas-input.js:233-239 | hit-testing includes all four edges of the rectangle and excludes the points one pixel beyond each edge |
| CanvasInputWidget.LayeredOrdered | src/js/canvas-input.js:304-309 | in a layered command list every command lies above every command drawn before it |
| CanvasInputWidget.Stack | src/js/canvas-input.js:304-309 | the layers are drawn back to front; the text is always drawn; the contour comes first exactly when there is one; the only placeholder is the given one; the caret comes last exactly when there is one |
| CanvasInputWidget.CanvasInput.constructor | src/js/canvas-input.js:2-37 | the configuration is stored; the state starts with empty text, not selected, offset 0 and nothing submitted; the text anchor is at `posX`; the selector is the pixel value `posX + measure("")`; the state is valid |
| CanvasInputWidget.CanvasInput.OnHover | src/js/canvas-input.js:83-99 | with cursor changes disabled nothing changes; inside the box the cursor becomes "text"; outside it becomes "auto" only if it was "text"; only the cursor may change |
| CanvasInputWidget.CanvasInput.OnClick | src/js/canvas-input.js:101-113 | the element is selected exactly when the click hits it; only `selected` may change |
| CanvasInputWidget.CanvasInput.OnKeydown | src/js/canvas-input.js:115-146 | the new state is the one `Editing.Keydown` gives for the old state and the key, and validity is preserved when the empty string measures `< width`; a text inside the Basic Multilingual Plane stays inside it, with JavaScript length equal to its character count |
| CanvasInputWidget.CanvasInput.ScrollToFit | src/js/canvas-input.js:137-140 | the scrolling loop ends at the offset `Overflow.ScrollForward` gives, and changes nothing else |
| CanvasInputWidget.CanvasInput.Backspace | src/js/canvas-input.js:148-170 | the new state is the one `Editing.Backspace` gives for the old one |
| CanvasInputWidget.CanvasInput.Unscroll | src/js/canvas-input.js:159-168 | the un-scrolling loop ends at the offset `Overflow.ScrollBack` gives, and changes nothing else |
| CanvasInputWidget.CanvasInput.Enter | src/js/canvas-input.js:172-182 | the new state is the one `Editing.Enter` gives, and validity is preserved |
| CanvasInputWidget.CanvasInput.Arrow | src/js/canvas-input.js:184-198 | only the selector changes, as `Editing.Arrow` says, and validity is preserved |
| CanvasInputWidget.CanvasInput.MoveTo | src/js/canvas-input.js:202-222 | the element moves to the new position, the text anchor's x follows it, and nothing else changes |
| CanvasInputWidget.CanvasInput.SelectorPosition | src/js/canvas-input.js:224-230 | in every state the caret's x is the anchor plus the width of the `selector` characters starting at the offset, as `substr` clamps them, so a stale selector after Enter or in a fresh input places the caret at `textPosX + measure("")` |
| CanvasInputWidget.CanvasInput.Render | src/js/canvas-input.js:241-309 | the command list is layered; the visible text `substr(offset)` is drawn at the anchor; the contour is drawn first exactly when its width is `> 0`; the placeholder is drawn exactly once when the text is empty and a placeholder is set, and otherwise not at all; the caret is drawn last, at `SelectorPosition()`, exactly when selected |

Definitions that carry no contract of their own and are pinned down by the
rows above:

- `CanvasInputWidget.InBox` and `CanvasInputWidget.CanvasInput.IsPositionInElement`
  model `isPositionInElement` (src/js/canvas-input.js:233-239); see `InBoxEdges`,
  `OnHover` and `OnClick`.
- `Editing.TypeKey` models the typing branch of `keydown`
  (src/js/canvas-input.js:130-145); see the `TypeKey…` and `Typing…` lemmas.
- `Editing.Keydown` models `keydown` (src/js/canvas-input.js:115-146),
  `Editing.Backspace` the backspace handler (:148-170), `Editing.Enter` the
  enter handler (:172-182) and `Editing.Arrow` the arrow handler (:184-198);
  see their lemmas and the `CanvasInput` methods of the same names.
- `Editing.CaretText` is the caret text `text.substr(offset, selector)`
  (src/js/canvas-input.js:227); see `CaretTextCountsFromOffset`.
- `Editing.Visible` is the drawn text `text.substr(offset)`
  (src/js/canvas-input.js:249); see `Render`.

## Left out

- Event wiring (src/js/canvas-input.js:74-81): the handlers are called directly, and the event object is reduced to the mouse coordinates or the key's name.
- Default-parameter merging (:40-69) is plain configuration. `Parameters` and `Defaults` replace it, holding only the parameters the behaviour depends on.
- Colours, the font, and the canvas style and stroke calls are display attributes with no effect on the state.
- The cursor style belongs to the canvas and is shared by every widget drawn on it (:92-97). With two widgets on one canvas, hovering the first sets `"text"`, and the second's handler then finds the point outside itself and resets it to `"auto"`. The model gives each widget its own `cursor`, so it does not capture that interference.
- The text anchor's y (:220) is floating-point display arithmetic and is not modelled; only the anchor's x is.
- Coordinates and text widths are integers. Floating-point measurement is not modelled, and nothing is assumed about `measure`.
- What the submit callback does is the host's concern; the model records only that it was called and with which string.
- CanvasInputWidget.CanvasInput.OnKeydown: requires that the typing loop ends (`Editing.TypingEnds`). So it excludes every typed key, while selected and with overflow allowed, that measures `> width` on its own and does not fit at the current offset. This holds even when a later offset would fit. With an arbitrary `measure` such a key can end the source's loop, but the model does not cover that case. When no later offset fits, the source loops forever.
- CanvasInputWidget.CanvasInput.Backspace: does not itself state that validity is preserved. `Editing.BackspacePreservesValid` and `OnKeydown` state it, and the offset bound needs `measure("") < width`.
- Whether insertion and un-scrolling reach the same offset for the same text is not stated. They use different comparisons (`<= width` and `< width`), so in general they do not.
