/**
 * The Konami-code easter egg: a listener keeps the last ten keys pressed and
 * fires when they spell the code. The comparison is made on the keys joined
 * with commas, as the page does it; when no key contains a comma that is
 * the same as comparing the keys themselves.
 */
module Konami {

  /** How many of the most recent keys the buffer keeps. */
  const WindowSize: nat := 10

  /** The code that activates the easter egg. */
  const KonamiSequence: seq<string> :=
    ["ArrowUp", "ArrowUp", "ArrowDown", "ArrowDown", "ArrowLeft", "ArrowRight", "ArrowLeft", "ArrowRight", "b", "a"]

  /** No key contains the separator. */
  predicate NoCommas(keys: seq<string>)
  {
    forall i :: 0 <= i < |keys| ==> ',' !in keys[i]
  }

  /**
   * The keys joined with a comma between neighbours, as array join with ','
   * does: no keys give the empty string, one key gives itself, and for
   * comma-free keys the result holds exactly one comma per pair of
   * neighbours.
   */
  function Join(keys: seq<string>): (s: string)
    ensures |keys| == 0 ==> s == ""
    ensures |keys| == 1 ==> s == keys[0]
    ensures |keys| >= 1 && NoCommas(keys) ==> multiset(s)[','] == |keys| - 1
  {
    if |keys| == 0 then ""
    else if |keys| == 1 then keys[0]
    else
      assert NoCommas(keys) ==> NoCommas(keys[1..]) by {
        if NoCommas(keys) {
          forall i | 0 <= i < |keys| - 1 ensures ',' !in keys[1..][i] { assert keys[1..][i] == keys[i + 1]; }
        }
      }
      keys[0] + "," + Join(keys[1..])
  }

  /**
   * Array slice from index -n: the last n elements, or all of them when
   * there are fewer.
   */
  function SliceLast(s: seq<string>, n: nat): (r: seq<string>)
    requires n > 0
    ensures |r| == if |s| <= n then |s| else n
    ensures r == s[|s| - |r|..]
  {
    if |s| <= n then s else s[|s| - n..]
  }

  /**
   * Pushing a key onto the window of the history and trimming it gives the
   * window of the extended history.
   */
  lemma WindowSlides(history: seq<string>, key: string, n: nat)
    requires n > 0
    ensures SliceLast(SliceLast(history, n) + [key], n) == SliceLast(history + [key], n)
  {
  }

  /** The first key of a joined list, and where the first separator falls. */
  lemma JoinHead(keys: seq<string>)
    requires |keys| >= 1
    ensures |Join(keys)| >= |keys[0]|
    ensures Join(keys)[..|keys[0]|] == keys[0]
    ensures |keys| == 1 ==> Join(keys) == keys[0]
    ensures |keys| > 1 ==>
      |Join(keys)| > |keys[0]| && Join(keys)[|keys[0]|] == ',' && Join(keys)[|keys[0]| + 1..] == Join(keys[1..])
  {
  }

  /**
   * Joining non-empty lists of comma-free keys loses nothing: two such lists
   * join to the same string exactly when they are equal.
   */
  lemma {:induction false} JoinInjective(a: seq<string>, b: seq<string>)
    requires |a| >= 1 && |b| >= 1
    requires NoCommas(a) && NoCommas(b)
    ensures Join(a) == Join(b) <==> a == b
  {
    if Join(a) == Join(b) {
      JoinHead(a);
      JoinHead(b);
      // the first separator of the joined string ends both first keys
      assert a[0] == b[0];
      assert |a| == 1 <==> |b| == 1;
      if |a| > 1 {
        assert NoCommas(a[1..]) && NoCommas(b[1..]) by {
          forall i | 0 <= i < |a| - 1 ensures ',' !in a[1..][i] { assert a[1..][i] == a[i + 1]; }
          forall i | 0 <= i < |b| - 1 ensures ',' !in b[1..][i] { assert b[1..][i] == b[i + 1]; }
        }
        JoinInjective(a[1..], b[1..]);
        assert a == [a[0]] + a[1..] && b == [b[0]] + b[1..];
      } else {
        assert a == [a[0]] && b == [b[0]];
      }
    }
  }

  /** None of the code's keys contains a comma. */
  lemma SequenceHasNoCommas()
    ensures NoCommas(KonamiSequence)
  {
  }

  /**
   * When no key contains a comma, the joined comparison the page makes holds
   * of a non-empty window exactly when the window is the code.
   */
  lemma ActivationIsSequenceMatch(window: seq<string>)
    requires |window| >= 1 && NoCommas(window)
    ensures Join(window) == Join(KonamiSequence) <==> window == KonamiSequence
  {
    SequenceHasNoCommas();
    JoinInjective(window, KonamiSequence);
  }

  /** The page's key listener and its buffer of recent keys. */
  class KonamiListener {
    /** The most recent keys, oldest first. */
    var buffer: seq<string>
    /** Every key pressed since the page loaded, oldest first. */
    ghost var pressed: seq<string>

    ghost predicate Valid()
      reads this
    {
      buffer == SliceLast(pressed, WindowSize)
    }

    constructor ()
      ensures Valid() && buffer == [] && pressed == []
    {
      buffer := [];
      pressed := [];
    }

    /**
     * A keydown event: the key is pushed, the buffer trimmed to the last ten
     * keys, and `activated` tells whether the easter egg fires.
     */
    method KeyDown(key: string) returns (activated: bool)
      requires Valid()
      modifies this
      ensures Valid()
      ensures pressed == old(pressed) + [key]
      ensures |buffer| == if |pressed| <= WindowSize then |pressed| else WindowSize
      ensures buffer == pressed[|pressed| - |buffer|..]
      ensures activated <==> Join(buffer) == Join(KonamiSequence)
      ensures NoCommas(buffer) ==>
        (activated <==> |pressed| >= WindowSize && pressed[|pressed| - WindowSize..] == KonamiSequence)
    {
      WindowSlides(pressed, key, WindowSize);
      buffer := SliceLast(buffer + [key], WindowSize);
      pressed := pressed + [key];
      activated := Join(buffer) == Join(KonamiSequence);
      if NoCommas(buffer) {
        ActivationIsSequenceMatch(buffer);
        assert |KonamiSequence| == WindowSize;
      }
    }
  }
}
