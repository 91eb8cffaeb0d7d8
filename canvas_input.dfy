/** The text-input widget itself: its configuration, its mutable state, the
    event handlers that change that state, hit-testing, repositioning and the
    ordered list of drawing commands that rendering issues. Event delivery,
    the drawing surface and the submit callback belong to the host: events
    are method calls, text measurement is the `measure` function, drawing is
    a list of commands, and each call of the callback is recorded in
    `submitted`. */
module CanvasInputWidget {
  import opened JsString
  import opened Overflow
  import opened Editing

  /** The construction parameters the widget's behaviour depends on.
      Colours and font are display attributes only and are not modelled;
      `placeholder == ""` stands for "no placeholder". */
  datatype Parameters = Parameters(
    posX: int, posY: int, width: int, height: int, contourWidth: int,
    placeholder: string, allowOverflow: bool, changeCursorOnHover: bool,
    hasCallback: bool)

  /** The values used for every parameter the caller leaves out. */
  const Defaults := Parameters(0, 0, 150, 30, 1, "Enter text here ...", true, true, false)

  /** The point (x, y) lies in the closed rectangle with corner (left, top). */
  predicate InBox(left: int, top: int, w: int, h: int, x: int, y: int) {
    x >= left && x <= left + w && y >= top && y <= top + h
  }

  /** Hit-testing includes all four edges (`t` runs along an edge) and
      nothing beyond them. */
  lemma InBoxEdges(left: int, top: int, w: int, h: int, t: int)
    requires 0 <= w && 0 <= h
    ensures 0 <= t <= w ==> InBox(left, top, w, h, left + t, top) && InBox(left, top, w, h, left + t, top + h)
    ensures 0 <= t <= h ==> InBox(left, top, w, h, left, top + t) && InBox(left, top, w, h, left + w, top + t)
    ensures !InBox(left, top, w, h, left - 1, top + t) && !InBox(left, top, w, h, left + w + 1, top + t)
    ensures !InBox(left, top, w, h, left + t, top - 1) && !InBox(left, top, w, h, left + t, top + h + 1)
  {
  }

  /** One drawing step of `render`, with the position it draws at. */
  datatype DrawCommand =
    | Contour(x: int, y: int, w: int, h: int, lineWidth: int)  // border and background
    | Placeholder(hint: string, x: int)                         // grey placeholder text
    | Text(visible: string, x: int)                             // the visible text
    | Caret(x: int)                                             // the '|' selector glyph

  /** Drawing order, back to front. */
  function Layer(c: DrawCommand): nat {
    match c
    case Contour(_, _, _, _, _) => 0
    case Placeholder(_, _) => 1
    case Text(_, _) => 2
    case Caret(_) => 3
  }

  class CanvasInput {
    // Configuration, fixed at construction.
    const measure: Measure
    const width: int
    const height: int
    const contourWidth: int
    const placeholder: string
    const allowOverflow: bool
    const changeCursorOnHover: bool
    const hasCallback: bool

    // Position of the element and x of the text anchor.
    var posX: int
    var posY: int
    var textPosX: int

    // Input state.
    var text: string
    var selected: bool
    var selectorPos: int
    var overflowOffset: nat

    // The host's cursor style and the strings passed to the submit callback.
    var cursor: string
    var submitted: seq<string>

    function Config(): Rules {
      Rules(measure, width, allowOverflow, hasCallback)
    }

    function State(): Editing.Input
      reads this
    {
      Editing.Input(text, selectorPos, overflowOffset, submitted)
    }

    ghost predicate Valid()
      reads this
    {
      Editing.Valid(State()) && textPosX == posX
    }

    constructor (p: Parameters, measure: Measure, cursor: string)
      ensures this.measure == measure && this.cursor == cursor
      ensures width == p.width && height == p.height && contourWidth == p.contourWidth
      ensures placeholder == p.placeholder && allowOverflow == p.allowOverflow
      ensures changeCursorOnHover == p.changeCursorOnHover && hasCallback == p.hasCallback
      ensures posX == p.posX && posY == p.posY && textPosX == p.posX
      ensures text == "" && !selected && overflowOffset == 0 && submitted == []
      ensures selectorPos == p.posX + measure("")
      ensures Valid()
    {
      this.measure := measure;
      width := p.width;
      height := p.height;
      contourWidth := p.contourWidth;
      placeholder := p.placeholder;
      allowOverflow := p.allowOverflow;
      changeCursorOnHover := p.changeCursorOnHover;
      hasCallback := p.hasCallback;
      posX := p.posX;
      posY := p.posY;
      this.cursor := cursor;
      submitted := [];
      text := "";
      selected := false;
      overflowOffset := 0;
      textPosX := p.posX;
      // The selector is not yet set, so the caret text is taken with an
      // undefined length: the rest of the (empty) text.
      selectorPos := p.posX + measure(SubstrFrom("", 0));
    }

    /** `isPositionInElement` */
    predicate IsPositionInElement(x: int, y: int)
      reads this
    {
      InBox(posX, posY, width, height, x, y)
    }

    /** Mouse move: changes only the cursor style, and only when enabled. */
    method OnHover(x: int, y: int)
      modifies this`cursor
      ensures !changeCursorOnHover ==> cursor == old(cursor)
      ensures changeCursorOnHover && IsPositionInElement(x, y) ==> cursor == "text"
      ensures changeCursorOnHover && !IsPositionInElement(x, y) ==>
                cursor == (if old(cursor) == "text" then "auto" else old(cursor))
    {
      if !changeCursorOnHover {
        return;
      }
      if IsPositionInElement(x, y) {
        cursor := "text";
      } else if cursor == "text" {
        cursor := "auto";
      }
    }

    /** Click: selects exactly when the click hits the element; the selector
      is not moved. */
    method OnClick(x: int, y: int)
      modifies this`selected
      ensures selected == IsPositionInElement(x, y)
    {
      if !IsPositionInElement(x, y) {
        selected := false;
        return;
      }
      selected := true;
    }

    /** Key press. */
    method OnKeydown(key: string)
      requires KeydownEnds(Config(), selected, State(), key)
      modifies this`text, this`selectorPos, this`overflowOffset, this`submitted
      ensures State() == Keydown(Config(), selected, old(State()), key)
      ensures old(Valid()) && measure("") < width ==> Valid()
      ensures old(InBmp(text)) ==> InBmp(text) && Utf16Length(text) == |text|
    {
      ghost var s0 := State();
      if InBmp(text) {
        KeydownKeepsBmp(Config(), selected, s0, key);
      }
      if !selected {
        return;
      }
      if Utf16Length(key) > 1 {
        match Find(SpecialKeys, key) {
          case None =>
          case Some(OnBackspace) => Backspace();
          case Some(OnEnter) => Enter();
          case Some(OnArrow) => Arrow(key);
        }
        if Editing.Valid(s0) && measure("") < width {
          KeydownPreservesValid(Config(), selected, s0, key);
        }
        return;
      }
      if measure(SubstrFrom(text, overflowOffset) + key) > width {
        if !allowOverflow {
          return;
        }
        ScrollToFit(key);
      }
      text := text + key;
      selectorPos := |text|;
      if Editing.Valid(s0) {
        TypeKeyKeepsVisibleWithinWidth(Config(), s0, key);
      }
    }

    /** The scrolling loop of a typed key: hide one more leading character
        until the visible text followed by the key fits. */
    method ScrollToFit(key: string)
      requires measure(key) <= width
      modifies this`overflowOffset
      ensures overflowOffset == ScrollForward(measure, width, text, key, old(overflowOffset))
    {
      ghost var start := overflowOffset;
      while measure(SubstrFrom(text, overflowOffset) + key) > width
        invariant ScrollForward(measure, width, text, key, overflowOffset)
               == ScrollForward(measure, width, text, key, start)
        decreases |text| - overflowOffset
      {
        if overflowOffset >= |text| {
          FitsPastEnd(measure, width, text, overflowOffset, key);
        }
        overflowOffset := overflowOffset + 1;
      }
    }

    /** Backspace: delete left of the selector, then un-scroll. */
    method Backspace()
      modifies this`text, this`selectorPos, this`overflowOffset
      ensures State() == Editing.Backspace(Config(), old(State()))
    {
      ghost var s0 := State();
      ghost var t := Editing.Backspace(Config(), s0);
      if |text| > 0 {
        text := Substr(text, 0, selectorPos - 1) + Substr(text, selectorPos, |text|);
        assert text == t.text;
        if selectorPos > 0 {
          selectorPos := selectorPos - 1;
        }
        if overflowOffset > 0 {
          Unscroll();
        }
        assert State() == Editing.Input(t.text, t.selector, t.offset, t.submitted);
      }
      assert State() == t;
    }

    /** The un-scrolling loop of Backspace: show one more leading character
        while the wider window fits strictly. */
    method Unscroll()
      modifies this`overflowOffset
      ensures overflowOffset == ScrollBack(measure, width, text, old(overflowOffset))
    {
      ghost var start := overflowOffset;
      while measure(SubstrFrom(text, overflowOffset - 1)) < width && overflowOffset > 0
        invariant ScrollBack(measure, width, text, overflowOffset) == ScrollBack(measure, width, text, start)
        decreases overflowOffset
      {
        overflowOffset := overflowOffset - 1;
      }
    }

    /** Enter: hand the text to the submit callback once, then clear it. */
    method Enter()
      modifies this`text, this`overflowOffset, this`submitted
      ensures State() == Editing.Enter(Config(), old(State()))
      ensures old(Valid()) ==> Valid()
    {
      if !hasCallback || |text| == 0 {
        return;
      }
      submitted := submitted + [text];
      text := "";
      overflowOffset := 0;
    }

    /** The handler shared by the four arrow keys. */
    method Arrow(key: string)
      modifies this`selectorPos
      ensures State() == Editing.Arrow(old(State()), key)
      ensures old(Valid()) ==> Valid()
    {
      ArrowKeepsSelectorInRange(State(), key);
      if key == "ArrowLeft" {
        if selectorPos > 0 {
          selectorPos := selectorPos - 1;
        }
      } else if key == "ArrowRight" {
        if selectorPos + 1 <= |text| {
          selectorPos := selectorPos + 1;
        }
      }
    }

    /** `moveTo`: the text anchor follows the element. */
    method MoveTo(x: int, y: int)
      modifies this`posX, this`posY, this`textPosX
      ensures posX == x && posY == y && textPosX == x
      ensures old(Editing.Valid(State())) ==> Valid()
    {
      posX := x;
      posY := y;
      textPosX := posX;
    }

    /** `calculateSelectorPosition`: the anchor plus the width of the caret
        text. */
    function SelectorPosition(): (x: int)
      reads this
      ensures x == textPosX + measure(text[Min(overflowOffset, |text|)..Min(overflowOffset + Max(selectorPos, 0), |text|)])
    {
      var caret := CaretText(State());
      CaretTextCountsFromOffset(State());
      textPosX + measure(caret)
    }

    /** `render`: contour, placeholder, text, caret, each only when it is
        drawn at all. */
    function Render(): (cmds: seq<DrawCommand>)
      reads this
      ensures Layered(cmds)
      ensures Text(Visible(State()), textPosX) in cmds
      ensures contourWidth > 0 <==> cmds[0].Contour?
      ensures contourWidth > 0 ==> cmds[0] == Contour(posX, posY, width, height, contourWidth)
      ensures Placeholders(cmds) == if text == "" && placeholder != "" then [Placeholder(placeholder, textPosX)] else []
      ensures selected <==> cmds[|cmds| - 1].Caret?
      ensures selected ==> cmds[|cmds| - 1] == Caret(SelectorPosition())
    {
      var contour := if contourWidth <= 0 then None else Some(Contour(posX, posY, width, height, contourWidth));
      var hint := if |text| > 0 || placeholder == "" then None else Some(Placeholder(placeholder, textPosX));
      var caret := if !selected then None else Some(Caret(SelectorPosition()));
      Stack(contour, hint, Text(SubstrFrom(text, overflowOffset), textPosX), caret)
    }
  }

  /** Each command lies on a strictly higher layer than the one drawn just
      before it. */
  predicate Layered(cmds: seq<DrawCommand>)
    decreases |cmds|
  {
    |cmds| <= 1 || (Layer(cmds[0]) < Layer(cmds[1]) && Layered(cmds[1..]))
  }

  /** A layered sequence is ordered back to front as a whole, so no command
      is hidden by one drawn before it. */
  lemma {:induction false} LayeredOrdered(cmds: seq<DrawCommand>)
    requires Layered(cmds)
    ensures forall i, j :: 0 <= i < j < |cmds| ==> Layer(cmds[i]) < Layer(cmds[j])
    decreases |cmds|
  {
    if |cmds| > 1 {
      LayeredOrdered(cmds[1..]);
      assert forall j :: 1 <= j < |cmds| ==> Layer(cmds[j]) == Layer(cmds[1..][j - 1]);
    }
  }

  /** The placeholder commands among `cmds`, in drawing order. */
  function Placeholders(cmds: seq<DrawCommand>): seq<DrawCommand>
    decreases |cmds|
  {
    if |cmds| == 0 then []
    else (if cmds[0].Placeholder? then [cmds[0]] else []) + Placeholders(cmds[1..])
  }

  /** The command drawn, if any, as a sequence of zero or one commands. */
  function AsSeq(c: Option<DrawCommand>): seq<DrawCommand> {
    if c.Some? then [c.value] else []
  }

  /** The layers from the text up: the text, then the caret. */
  function Above(body: DrawCommand, caret: Option<DrawCommand>): (cmds: seq<DrawCommand>)
    requires body.Text?
    requires caret.Some? ==> caret.value.Caret?
    ensures Layered(cmds)
    ensures |cmds| > 0 && cmds[0] == body && Layer(cmds[0]) == 2
    ensures Placeholders(cmds) == []
    ensures caret.Some? <==> cmds[|cmds| - 1].Caret?
    ensures caret.Some? ==> cmds[|cmds| - 1] == caret.value
  {
    if caret.Some? then
      assert [body, caret.value][1..] == [caret.value];
      assert [caret.value][1..] == [];
      assert Placeholders([caret.value]) == [];
      [body, caret.value]
    else
      assert [body][1..] == [];
      [body]
  }

  /** The placeholder, when there is one, below the layers above it. */
  function WithHint(hint: Option<DrawCommand>, above: seq<DrawCommand>): (cmds: seq<DrawCommand>)
    requires hint.Some? ==> hint.value.Placeholder?
    requires Layered(above) && |above| > 0 && Layer(above[0]) == 2
    requires Placeholders(above) == []
    ensures Layered(cmds)
    ensures |cmds| > 0 && 1 <= Layer(cmds[0])
    ensures cmds[|cmds| - 1] == above[|above| - 1]
    ensures above[0] in cmds
    ensures Placeholders(cmds) == AsSeq(hint)
  {
    if hint.Some? then
      assert ([hint.value] + above)[1..] == above;
      [hint.value] + above
    else above
  }

  /** The contour, when there is one, below everything else. */
  function WithContour(contour: Option<DrawCommand>, rest: seq<DrawCommand>): (cmds: seq<DrawCommand>)
    requires contour.Some? ==> contour.value.Contour?
    requires Layered(rest) && |rest| > 0 && 1 <= Layer(rest[0])
    ensures Layered(cmds)
    ensures |cmds| > 0 && cmds[|cmds| - 1] == rest[|rest| - 1]
    ensures forall c :: c in rest ==> c in cmds
    ensures contour.Some? <==> cmds[0].Contour?
    ensures contour.Some? ==> cmds[0] == contour.value
    ensures Placeholders(cmds) == Placeholders(rest)
  {
    if contour.Some? then
      assert ([contour.value] + rest)[1..] == rest;
      [contour.value] + rest
    else rest
  }

  /** The layers of a rendering, back to front, each optional but the text. */
  function Stack(contour: Option<DrawCommand>, hint: Option<DrawCommand>, body: DrawCommand,
                 caret: Option<DrawCommand>): (cmds: seq<DrawCommand>)
    requires contour.Some? ==> contour.value.Contour?
    requires hint.Some? ==> hint.value.Placeholder?
    requires body.Text?
    requires caret.Some? ==> caret.value.Caret?
    ensures Layered(cmds)
    ensures body in cmds
    ensures contour.Some? <==> cmds[0].Contour?
    ensures contour.Some? ==> cmds[0] == contour.value
    ensures Placeholders(cmds) == AsSeq(hint)
    ensures caret.Some? <==> cmds[|cmds| - 1].Caret?
    ensures caret.Some? ==> cmds[|cmds| - 1] == caret.value
  {
    WithContour(contour, WithHint(hint, Above(body, caret)))
  }

  /** A client session: select, then type two characters. */
  method ClickThenType() {
    var w := new CanvasInput(Defaults, s => 7 * |s|, "");
    w.OnClick(10, 10);
    assert w.selected;
    assert Utf16Length("H") == 1;
    w.OnKeydown("H");
    assert w.text == "H" && w.selectorPos == 1 && w.overflowOffset == 0;
    assert Utf16Length("i") == 1;
    w.OnKeydown("i");
    assert w.text == "Hi" && w.selectorPos == 2 && w.overflowOffset == 0;
  }

  /** Once a click lands outside the element, keys no longer edit it. */
  method ClickAwayThenType() {
    var w := new CanvasInput(Defaults, s => 7 * |s|, "");
    w.OnClick(10, 10);
    assert Utf16Length("H") == 1;
    w.OnKeydown("H");
    w.OnClick(500, 10);
    assert !w.selected;
    ghost var before := w.text;
    w.OnKeydown("x");
    assert w.text == before;
    w.OnKeydown("Backspace");
    assert w.text == before == "H";
  }
}
