/** The two loops that move the overflow offset (the number of leading
    characters hidden from the display): the forward scroll run when a typed
    character does not fit, and the backward un-scroll run after a
    backspace. The text measurement of the drawing surface is a parameter. */
module Overflow {
  import opened JsString

  /** Pixel width of a string in the configured font (the host's
      `measureText(s).width`); nothing is assumed about it. */
  type Measure = string -> int

  /** The visible part from `offset` on, followed by `key`, is at most
      `width` pixels wide. */
  predicate FitsAfter(m: Measure, width: int, text: string, offset: int, key: string) {
    m(SubstrFrom(text, offset) + key) <= width
  }

  /** At an offset past the end the visible part is empty, so only the key
      itself is measured. */
  lemma FitsPastEnd(m: Measure, width: int, text: string, offset: int, key: string)
    requires offset >= |text|
    ensures FitsAfter(m, width, text, offset, key) <==> m(key) <= width
  {
    assert SubstrFrom(text, offset) + key == key;
  }

  /** Where the forward loop `while (measure(text.substr(offset) + key) >
      width) offset++` stops. It stops for sure once the key alone fits,
      because past the end of the text only the key is measured. */
  function ScrollForward(m: Measure, width: int, text: string, key: string, offset: nat): (k: nat)
    requires m(key) <= width || FitsAfter(m, width, text, offset, key)
    ensures offset <= k <= Max(offset, |text|)
    ensures FitsAfter(m, width, text, k, key)
    ensures forall j :: offset <= j < k ==> !FitsAfter(m, width, text, j, key)
    decreases |text| - offset
  {
    if FitsAfter(m, width, text, offset, key) then offset
    else
      assert offset < |text| by {
        if offset >= |text| { FitsPastEnd(m, width, text, offset, key); }
      }
      ScrollForward(m, width, text, key, offset + 1)
  }

  /** Where the backward loop `while (measure(text.substr(offset - 1)) <
      width && offset > 0) offset--` stops: at 0, or at the first offset
      whose one-character-wider window no longer fits strictly. */
  function ScrollBack(m: Measure, width: int, text: string, offset: nat): (k: nat)
    ensures k <= offset
    ensures k == 0 || m(SubstrFrom(text, k - 1)) >= width
    ensures forall j :: k <= j < offset ==> m(SubstrFrom(text, j)) < width
    decreases offset
  {
    if m(SubstrFrom(text, offset - 1)) < width && offset > 0 then ScrollBack(m, width, text, offset - 1)
    else offset
  }

  /** When every window from the start up to the current offset fits
      strictly, un-scrolling shows the text from its first character. */
  lemma {:induction false} ScrollBackToStart(m: Measure, width: int, text: string, offset: nat)
    requires forall j :: 0 <= j < offset ==> m(SubstrFrom(text, j)) < width
    ensures ScrollBack(m, width, text, offset) == 0
  {
    if offset > 0 {
      assert m(SubstrFrom(text, offset - 1)) < width;
      ScrollBackToStart(m, width, text, offset - 1);
    }
  }
}
