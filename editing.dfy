/** The editing rules of the text input, as functions of the input's state:
    what a typed character, Backspace, Enter and the arrow keys do to the
    text, the selector (caret) position, the overflow offset and the log of
    submitted strings. The widget's methods are proved to follow them. */
module Editing {
  import opened JsString
  import opened Overflow

  datatype Option<T> = None | Some(value: T)

  /** The configuration the editing rules depend on: the host's text
      measurement, the input's width, whether the text may scroll, and whether
      a submit callback is registered. */
  datatype Rules = Rules(measure: Measure, width: int, allowOverflow: bool, hasCallback: bool)

  /** The mutable editing state. `selector` is a plain number: it starts as
      a pixel position and is left stale by Enter, so it is not always an
      index into `text`. `submitted` records every call of the submit
      callback, oldest first. */
  datatype Input = Input(text: string, selector: int, offset: nat, submitted: seq<string>)

  /** The part of the text that is drawn: `text.substr(offset)`. */
  function Visible(s: Input): string {
    SubstrFrom(s.text, s.offset)
  }

  /** Once there is text, the selector is an index into it. */
  predicate SelectorInText(s: Input) {
    |s.text| > 0 ==> 0 <= s.selector <= |s.text|
  }

  predicate SelectorInRange(s: Input) {
    0 <= s.selector <= |s.text|
  }

  predicate OffsetInText(s: Input) {
    s.offset <= |s.text|
  }

  predicate Valid(s: Input) {
    SelectorInText(s) && OffsetInText(s)
  }

  // ------------------------------------------------------------------
  // Typing a character (src/js/canvas-input.js:130-145)
  // ------------------------------------------------------------------

  /** The visible text followed by `key` fits in the input. */
  predicate KeyFits(r: Rules, s: Input, key: string) {
    FitsAfter(r.measure, r.width, s.text, s.offset, key)
  }

  /** The scrolling loop is not entered, or is sure to stop. The source's
      loop runs forever when neither holds and no later offset fits. */
  predicate TypingEnds(r: Rules, s: Input, key: string) {
    !r.allowOverflow || r.measure(key) <= r.width || KeyFits(r, s, key)
  }

  /** A key of at most one character: it is appended at the END of the text,
      wherever the selector is, and the selector moves to the end. When it
      does not fit it is dropped, or, when overflow is allowed, the offset
      is moved forward until it fits. */
  function TypeKey(r: Rules, s: Input, key: string): Input
    requires TypingEnds(r, s, key)
  {
    if !KeyFits(r, s, key) && !r.allowOverflow then s
    else
      var offset := if KeyFits(r, s, key) then s.offset
                    else ScrollForward(r.measure, r.width, s.text, key, s.offset);
      Input(s.text + key, |s.text + key|, offset, s.submitted)
  }

  lemma TypeKeyThatFits(r: Rules, s: Input, key: string)
    requires KeyFits(r, s, key)
    ensures TypeKey(r, s, key) == Input(s.text + key, |s.text| + |key|, s.offset, s.submitted)
  {
  }

  lemma TypeKeyRejected(r: Rules, s: Input, key: string)
    requires !KeyFits(r, s, key) && !r.allowOverflow
    ensures TypeKey(r, s, key) == s
  {
  }

  /** Scrolling moves the offset forward, to the FIRST offset at which the
      key fits, and never past the end of the text. */
  lemma TypeKeyScrolls(r: Rules, s: Input, key: string)
    requires !KeyFits(r, s, key) && r.allowOverflow && r.measure(key) <= r.width
    ensures TypeKey(r, s, key).text == s.text + key
    ensures TypeKey(r, s, key).selector == |s.text| + |key|
    ensures s.offset < TypeKey(r, s, key).offset <= Max(s.offset, |s.text|)
    ensures FitsAfter(r.measure, r.width, s.text, TypeKey(r, s, key).offset, key)
    ensures forall j :: s.offset <= j < TypeKey(r, s, key).offset ==> !FitsAfter(r.measure, r.width, s.text, j, key)
  {
  }

  /** Typing keeps the state valid, and whenever the key is accepted the
      visible text afterwards is at most `width` wide. */
  lemma TypeKeyKeepsVisibleWithinWidth(r: Rules, s: Input, key: string)
    requires Valid(s) && TypingEnds(r, s, key)
    ensures Valid(TypeKey(r, s, key))
    ensures KeyFits(r, s, key) || r.allowOverflow ==> r.measure(Visible(TypeKey(r, s, key))) <= r.width
  {
    var t := TypeKey(r, s, key);
    if KeyFits(r, s, key) || r.allowOverflow {
      assert t.offset <= |s.text|;
      SubstrFromAppend(s.text, key, t.offset);
    }
  }

  /** Overflow is allowed only for keys that fit on their own. */
  predicate EachKeyFitsAlone(r: Rules, keys: seq<string>) {
    r.allowOverflow ==> forall i :: 0 <= i < |keys| ==> r.measure(keys[i]) <= r.width
  }

  /** Typing the keys one after the other. */
  function TypeAll(r: Rules, s: Input, keys: seq<string>): Input
    requires EachKeyFitsAlone(r, keys)
    decreases |keys|
  {
    if keys == [] then s
    else
      assert EachKeyFitsAlone(r, keys[1..]) by {
        if r.allowOverflow {
          forall i | 0 <= i < |keys| - 1 ensures r.measure(keys[1..][i]) <= r.width {
            assert keys[1..][i] == keys[i + 1];
          }
        }
      }
      TypeAll(r, TypeKey(r, s, keys[0]), keys[1..])
  }

  /** Over any sequence of typed characters the visible text never becomes
      wider than the input. */
  lemma {:induction false} TypingKeepsVisibleWithinWidth(r: Rules, s: Input, keys: seq<string>)
    requires Valid(s) && r.measure(Visible(s)) <= r.width
    requires EachKeyFitsAlone(r, keys)
    ensures Valid(TypeAll(r, s, keys))
    ensures r.measure(Visible(TypeAll(r, s, keys))) <= r.width
    decreases |keys|
  {
    if keys != [] {
      TypeKeyKeepsVisibleWithinWidth(r, s, keys[0]);
      assert EachKeyFitsAlone(r, keys[1..]) by {
        if r.allowOverflow {
          forall i | 0 <= i < |keys| - 1 ensures r.measure(keys[1..][i]) <= r.width {
            assert keys[1..][i] == keys[i + 1];
          }
        }
      }
      TypingKeepsVisibleWithinWidth(r, TypeKey(r, s, keys[0]), keys[1..]);
    }
  }

  /** Typing "Hello" into an empty input where every prefix fits. */
  lemma TypingHello(r: Rules, s: Input)
    requires s.text == "" && s.offset == 0
    requires EachKeyFitsAlone(r, ["H", "e", "l", "l", "o"])
    requires r.measure("H") <= r.width && r.measure("He") <= r.width && r.measure("Hel") <= r.width
    requires r.measure("Hell") <= r.width && r.measure("Hello") <= r.width
    ensures TypeAll(r, s, ["H", "e", "l", "l", "o"]) == Input("Hello", 5, 0, s.submitted)
  {
    var keys := ["H", "e", "l", "l", "o"];
    var s1 := Input("H", 1, 0, s.submitted);
    var s2 := Input("He", 2, 0, s.submitted);
    var s3 := Input("Hel", 3, 0, s.submitted);
    var s4 := Input("Hell", 4, 0, s.submitted);
    var s5 := Input("Hello", 5, 0, s.submitted);
    assert SubstrFrom(s.text, 0) + "H" == "H";
    assert SubstrFrom(s1.text, 0) + "e" == "He";
    assert SubstrFrom(s2.text, 0) + "l" == "Hel";
    assert SubstrFrom(s3.text, 0) + "l" == "Hell";
    assert SubstrFrom(s4.text, 0) + "o" == "Hello";
    assert TypeKey(r, s, "H") == s1;
    assert TypeKey(r, s1, "e") == s2;
    assert TypeKey(r, s2, "l") == s3;
    assert TypeKey(r, s3, "l") == s4;
    assert TypeKey(r, s4, "o") == s5;
    assert keys[1..] == ["e", "l", "l", "o"];
    assert keys[1..][1..] == ["l", "l", "o"];
    assert keys[1..][1..][1..] == ["l", "o"];
    assert keys[1..][1..][1..][1..] == ["o"];
    assert keys[1..][1..][1..][1..][1..] == [];
  }

  // ------------------------------------------------------------------
  // Backspace (src/js/canvas-input.js:148-170)
  // ------------------------------------------------------------------

  /** Remove the character left of the selector, move the selector left,
      and, when the text was scrolled, un-scroll while the wider window fits
      strictly. */
  function Backspace(r: Rules, s: Input): Input {
    if |s.text| > 0 then
      var text := Substr(s.text, 0, s.selector - 1) + Substr(s.text, s.selector, |s.text|);
      var selector := if s.selector > 0 then s.selector - 1 else s.selector;
      var offset := if s.offset > 0 then ScrollBack(r.measure, r.width, text, s.offset) else s.offset;
      Input(text, selector, offset, s.submitted)
    else s
  }

  lemma BackspaceOnEmpty(r: Rules, s: Input)
    requires s.text == ""
    ensures Backspace(r, s) == s
  {
  }

  /** What Backspace does to a non-empty text whose selector is inside it. */
  lemma BackspaceErases(r: Rules, s: Input)
    requires |s.text| > 0 && SelectorInText(s)
    ensures s.selector > 0 ==> Backspace(r, s).text == s.text[..s.selector - 1] + s.text[s.selector..]
    ensures s.selector > 0 ==> Backspace(r, s).selector == s.selector - 1
    ensures s.selector == 0 ==> Backspace(r, s).text == s.text && Backspace(r, s).selector == 0
    ensures Backspace(r, s).offset <= s.offset
    ensures Backspace(r, s).offset == 0 || r.measure(SubstrFrom(Backspace(r, s).text, Backspace(r, s).offset - 1)) >= r.width
    ensures forall j :: Backspace(r, s).offset <= j < s.offset ==> r.measure(SubstrFrom(Backspace(r, s).text, j)) < r.width
    ensures Backspace(r, s).submitted == s.submitted
  {
    SpliceOut(s.text, s.selector);
  }

  /** Backspace keeps the selector inside the text; it keeps the offset
      inside the text when the empty string fits strictly. */
  lemma BackspacePreservesValid(r: Rules, s: Input)
    requires Valid(s)
    ensures SelectorInText(Backspace(r, s))
    ensures r.measure("") < r.width ==> OffsetInText(Backspace(r, s))
  {
    if |s.text| > 0 {
      BackspaceErases(r, s);
    }
  }

  /** Backspace pressed `n` times. */
  function BackspaceTimes(r: Rules, s: Input, n: nat): Input
    decreases n
  {
    if n == 0 then s else BackspaceTimes(r, Backspace(r, s), n - 1)
  }

  /** With the selector at the end, one backspace per character empties the
      input and brings the offset back to 0. */
  lemma {:induction false} BackspacesEmptyTheInput(r: Rules, s: Input)
    requires Valid(s) && s.selector == |s.text| && r.measure("") < r.width
    ensures BackspaceTimes(r, s, |s.text|) == Input("", 0, 0, s.submitted)
    decreases |s.text|
  {
    if |s.text| > 0 {
      var t := Backspace(r, s);
      BackspaceErases(r, s);
      BackspacePreservesValid(r, s);
      assert t.text == s.text[..|s.text| - 1];
      BackspacesEmptyTheInput(r, t);
    }
  }

  // ------------------------------------------------------------------
  // Enter (src/js/canvas-input.js:172-182)
  // ------------------------------------------------------------------

  /** Submit the text once and clear it; the selector is left as it was. */
  function Enter(r: Rules, s: Input): Input {
    if !r.hasCallback || |s.text| == 0 then s
    else Input("", s.selector, 0, s.submitted + [s.text])
  }

  lemma EnterSubmitsOnce(r: Rules, s: Input)
    ensures !r.hasCallback || s.text == "" ==> Enter(r, s) == s
    ensures r.hasCallback && s.text != "" ==>
      Enter(r, s).submitted == s.submitted + [s.text] && Enter(r, s).text == "" &&
      Enter(r, s).offset == 0 && Enter(r, s).selector == s.selector
    ensures Valid(Enter(r, s)) <== Valid(s)
  {
  }

  /** The selector is stale after a submit: "ab" with the caret at 2 leaves
      an empty text with the caret still at 2. */
  lemma EnterLeavesSelectorStale(r: Rules)
    requires r.hasCallback
    ensures Enter(r, Input("ab", 2, 0, [])) == Input("", 2, 0, ["ab"])
    ensures !SelectorInRange(Enter(r, Input("ab", 2, 0, [])))
    ensures CaretText(Enter(r, Input("ab", 2, 0, []))) == ""
  {
  }

  // ------------------------------------------------------------------
  // Arrow keys (src/js/canvas-input.js:184-198)
  // ------------------------------------------------------------------

  /** ArrowLeft and ArrowRight move the selector by one within the text; any
      other key (ArrowUp, ArrowDown) matches no case. */
  function Arrow(s: Input, key: string): Input {
    if key == "ArrowLeft" then
      if s.selector > 0 then s.(selector := s.selector - 1) else s
    else if key == "ArrowRight" then
      if s.selector + 1 <= |s.text| then s.(selector := s.selector + 1) else s
    else s
  }

  lemma ArrowKeepsSelectorInRange(s: Input, key: string)
    ensures SelectorInRange(s) ==> SelectorInRange(Arrow(s, key))
    ensures Valid(s) ==> Valid(Arrow(s, key))
    ensures Arrow(s, key).text == s.text && Arrow(s, key).offset == s.offset
    ensures key != "ArrowLeft" && key != "ArrowRight" ==> Arrow(s, key) == s
  {
  }

  /** Left and right undo each other away from the ends. */
  lemma ArrowLeftRightInverse(s: Input)
    ensures 0 < s.selector <= |s.text| ==> Arrow(Arrow(s, "ArrowLeft"), "ArrowRight") == s
    ensures 0 <= s.selector < |s.text| ==> Arrow(Arrow(s, "ArrowRight"), "ArrowLeft") == s
  {
  }

  // ------------------------------------------------------------------
  // Key dispatch (src/js/canvas-input.js:22-30, 115-128)
  // ------------------------------------------------------------------

  /** The callbacks the named keys are bound to. */
  datatype Handler = OnBackspace | OnEnter | OnArrow

  const SpecialKeys: seq<(string, Handler)> := [
    ("Backspace", OnBackspace),
    ("Enter", OnEnter),
    ("ArrowLeft", OnArrow),
    ("ArrowRight", OnArrow),
    ("ArrowUp", OnArrow),
    ("ArrowDown", OnArrow)
  ]

  /** `table.find(entry => entry.key === key)`: the handler of the first
      entry with that key. */
  function Find(table: seq<(string, Handler)>, key: string): (h: Option<Handler>)
    ensures h.None? <==> forall i :: 0 <= i < |table| ==> table[i].0 != key
    ensures h.Some? ==> exists i :: 0 <= i < |table| && table[i] == (key, h.value) &&
                                    forall j :: 0 <= j < i ==> table[j].0 != key
  {
    if table == [] then None
    else if table[0].0 == key then Some(table[0].1)
    else
      var h := Find(table[1..], key);
      assert forall i :: 1 <= i < |table| ==> table[i] == table[1..][i - 1];
      h
  }

  lemma SpecialKeyHandlers(key: string)
    ensures key == "Backspace" ==> Find(SpecialKeys, key) == Some(OnBackspace)
    ensures key == "Enter" ==> Find(SpecialKeys, key) == Some(OnEnter)
    ensures key == "ArrowLeft" || key == "ArrowRight" || key == "ArrowUp" || key == "ArrowDown" ==>
      Find(SpecialKeys, key) == Some(OnArrow)
    ensures (key != "Backspace" && key != "Enter" && key != "ArrowLeft" && key != "ArrowRight" &&
             key != "ArrowUp" && key != "ArrowDown") ==> Find(SpecialKeys, key) == None
    ensures Find(SpecialKeys, key) == Some(OnBackspace) ==> key == "Backspace"
    ensures Find(SpecialKeys, key) == Some(OnEnter) ==> key == "Enter"
  {
    var h := Find(SpecialKeys, key);
    if key == "Backspace" {
      assert SpecialKeys[0].0 == key;
    } else if key == "Enter" {
      assert SpecialKeys[0].0 != key;
      assert SpecialKeys[1].0 == key;
    } else if key == "ArrowLeft" || key == "ArrowRight" || key == "ArrowUp" || key == "ArrowDown" {
      assert SpecialKeys[2].0 == key || SpecialKeys[3].0 == key || SpecialKeys[4].0 == key || SpecialKeys[5].0 == key;
    }
  }

  /** The scrolling loop can only be entered for a key of at most one UTF-16
      code unit. */
  predicate KeydownEnds(r: Rules, selected: bool, s: Input, key: string) {
    !selected || Utf16Length(key) > 1 || TypingEnds(r, s, key)
  }

  /** A key press: ignored unless the input is selected; a key whose
      JavaScript length (in UTF-16 code units) exceeds one goes to its
      handler, if it has one; anything else is typed. */
  function Keydown(r: Rules, selected: bool, s: Input, key: string): Input
    requires KeydownEnds(r, selected, s, key)
  {
    if !selected then s
    else if Utf16Length(key) > 1 then
      match Find(SpecialKeys, key)
      case None => s
      case Some(OnBackspace) => Backspace(r, s)
      case Some(OnEnter) => Enter(r, s)
      case Some(OnArrow) => Arrow(s, key)
    else TypeKey(r, s, key)
  }

  /** Keys that change nothing: every key while not selected, and, while
      selected, every named key other than Backspace, Enter, ArrowLeft and
      ArrowRight. */
  lemma KeydownIgnored(r: Rules, selected: bool, s: Input, key: string)
    requires !selected || (Utf16Length(key) > 1 && key != "Backspace" && key != "Enter" && key != "ArrowLeft" && key != "ArrowRight")
    ensures Keydown(r, selected, s, key) == s
  {
    if selected {
      SpecialKeyHandlers(key);
      var h := Find(SpecialKeys, key);
      assert h == None || h == Some(OnArrow);
      assert Arrow(s, key) == s;
      assert Keydown(r, selected, s, key) == if h == None then s else Arrow(s, key);
    }
  }

  /** A character outside the Basic Multilingual Plane is two code units long
      in JavaScript, so it takes the named-key path, finds no handler and is
      ignored rather than typed. */
  lemma NonBmpKeyIgnored(r: Rules, s: Input, c: char)
    requires c as int > 0xFFFF
    ensures Utf16Length([c]) == 2
    ensures Keydown(r, true, s, [c]) == s
  {
    assert [c][1..] == [];
    KeydownIgnored(r, true, s, [c]);
  }

  /** The named keys reach their handlers. */
  lemma KeydownDispatches(r: Rules, s: Input, key: string)
    ensures key == "Backspace" ==> Keydown(r, true, s, key) == Backspace(r, s)
    ensures key == "Enter" ==> Keydown(r, true, s, key) == Enter(r, s)
    ensures key == "ArrowLeft" || key == "ArrowRight" ==> Keydown(r, true, s, key) == Arrow(s, key)
  {
    SpecialKeyHandlers(key);
  }

  /** Every key press keeps the state valid, given that the empty string
      fits strictly (needed by Backspace). */
  lemma KeydownPreservesValid(r: Rules, selected: bool, s: Input, key: string)
    requires Valid(s) && KeydownEnds(r, selected, s, key) && r.measure("") < r.width
    ensures Valid(Keydown(r, selected, s, key))
  {
    if selected {
      if Utf16Length(key) > 1 {
        match Find(SpecialKeys, key)
        case None =>
        case Some(OnBackspace) => BackspacePreservesValid(r, s);
        case Some(OnEnter) =>
        case Some(OnArrow) => ArrowKeepsSelectorInRange(s, key);
      } else {
        TypeKeyKeepsVisibleWithinWidth(r, s, key);
      }
    }
  }

  /** Every character is inside the Basic Multilingual Plane, so the length
      Dafny counts is the JavaScript length. */
  predicate InBmp(t: string) {
    forall i :: 0 <= i < |t| ==> t[i] as int <= 0xFFFF
  }

  /** A typed key of at most one code unit keeps the text inside the Basic
      Multilingual Plane. */
  lemma TypeKeyKeepsBmp(r: Rules, s: Input, key: string)
    requires InBmp(s.text) && TypingEnds(r, s, key) && Utf16Length(key) <= 1
    ensures InBmp(TypeKey(r, s, key).text)
  {
    Utf16LengthOfBmp(key);
    assert InBmp(key);
    var t := s.text + key;
    assert forall i :: 0 <= i < |t| ==> t[i] == if i < |s.text| then s.text[i] else key[i - |s.text|];
  }

  /** A piece cut out of a text inside the plane stays inside it. */
  lemma SubstrKeepsBmp(t: string, start: int, length: int)
    requires InBmp(t)
    ensures InBmp(Substr(t, start, length))
  {
    var first := if start < 0 then Max(|t| + start, 0) else Min(start, |t|);
    var count := Min(Max(length, 0), |t|);
    var piece := t[first..Min(first + count, |t|)];
    assert forall i :: 0 <= i < |piece| ==> piece[i] == t[first + i];
  }

  lemma BackspaceKeepsBmp(r: Rules, s: Input)
    requires InBmp(s.text)
    ensures InBmp(Backspace(r, s).text)
  {
    if |s.text| > 0 {
      var a := Substr(s.text, 0, s.selector - 1);
      var b := Substr(s.text, s.selector, |s.text|);
      SubstrKeepsBmp(s.text, 0, s.selector - 1);
      SubstrKeepsBmp(s.text, s.selector, |s.text|);
      assert forall i :: 0 <= i < |a + b| ==> (a + b)[i] == if i < |a| then a[i] else b[i - |a|];
    }
  }

  /** Only keys of one code unit are typed, so every key press keeps the
      text inside the Basic Multilingual Plane, and the selector set to
      `|text|` is the JavaScript `input_text.length`. */
  lemma KeydownKeepsBmp(r: Rules, selected: bool, s: Input, key: string)
    requires InBmp(s.text) && KeydownEnds(r, selected, s, key)
    ensures InBmp(Keydown(r, selected, s, key).text)
    ensures Utf16Length(Keydown(r, selected, s, key).text) == |Keydown(r, selected, s, key).text|
  {
    if selected {
      if Utf16Length(key) > 1 {
        match Find(SpecialKeys, key)
        case None =>
        case Some(OnBackspace) => BackspaceKeepsBmp(r, s);
        case Some(OnEnter) =>
        case Some(OnArrow) =>
      } else {
        TypeKeyKeepsBmp(r, s, key);
      }
    }
    Utf16LengthOfBmp(Keydown(r, selected, s, key).text);
  }

  // ------------------------------------------------------------------
  // Caret text (src/js/canvas-input.js:224-230)
  // ------------------------------------------------------------------

  /** The text measured to place the caret: `text.substr(offset, selector)`,
      that is `selector` characters FROM the offset, not the characters
      between the offset and the selector. */
  function CaretText(s: Input): string {
    Substr(s.text, s.offset, s.selector)
  }

  /** For every state, stale selectors included: an offset past the end, a
      negative selector or one beyond the text are clamped by `substr`. */
  lemma CaretTextCountsFromOffset(s: Input)
    ensures CaretText(s) == s.text[Min(s.offset, |s.text|)..Min(s.offset + Max(s.selector, 0), |s.text|)]
    ensures s.text == "" ==> CaretText(s) == ""
    ensures s.offset == 0 && SelectorInRange(s) ==> CaretText(s) == s.text[..s.selector]
    ensures CaretText(Input("abcd", 2, 1, [])) == "bc"
  {
  }
}
