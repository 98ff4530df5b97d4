/**
 * The typing effect of the hero motto: the motto's text element is cleared,
 * then a timer callback appends one character at a time until the whole
 * text is shown. The timer itself is left out; each call of `Type` is one
 * firing of the callback.
 */
module Typing {

  /** The motto the page types out. */
  const Motto: string := "INTELLIGENT REVENUE ARCHITECTURE"

  /** The typing animation of one text element. */
  class TypingEffect {
    /** The text to type. */
    const text: string
    /** How many characters have been typed. */
    var index: nat
    /** The element's text content. */
    var shown: string

    /** What is shown is always the typed prefix of the text. */
    ghost predicate Valid()
      reads this
    {
      index <= |text| && shown == text[..index]
    }

    /**
     * Starting the effect clears the element. The page counts and indexes
     * the text in UTF-16 code units; the text is kept within the Basic
     * Multilingual Plane, where each character is one such unit.
     */
    constructor (text: string)
      requires forall c :: c in text ==> c as int < 0x1_0000
      ensures Valid()
      ensures this.text == text && index == 0 && shown == ""
    {
      this.text := text;
      index := 0;
      shown := "";
    }

    /**
     * One firing of the callback: while characters remain, the next one is
     * appended and another firing is scheduled (`scheduled`); once the text
     * is complete nothing changes and the chain stops.
     */
    method Type() returns (scheduled: bool)
      requires Valid()
      modifies this`index, this`shown
      ensures Valid()
      ensures scheduled <==> old(index) < |text|
      ensures scheduled ==> index == old(index) + 1 && shown == old(shown) + [text[old(index)]]
      ensures !scheduled ==> index == old(index) && shown == old(shown)
    {
      scheduled := index < |text|;
      if scheduled {
        shown := shown + [text[index]];
        index := index + 1;
      }
    }

    /**
     * The whole chain of callbacks, each scheduling the next until one finds
     * the text complete: it ends with the full text shown.
     */
    method TypeAll()
      requires Valid()
      modifies this`index, this`shown
      ensures Valid()
      ensures index == |text| && shown == text
    {
      var more := true;
      while more
        invariant Valid()
        invariant !more ==> index == |text|
        decreases |text| - index + (if more then 1 else 0)
      {
        more := Type();
      }
    }
  }

  /** Typing out the motto from a cleared element ends with the motto shown. */
  method TypeMotto() returns (shown: string)
    ensures shown == Motto
  {
    var effect := new TypingEffect(Motto);
    effect.TypeAll();
    shown := effect.shown;
  }
}
