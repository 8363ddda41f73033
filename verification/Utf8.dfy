/** Decoding a byte string into runes as a `range` loop of the program does. A string stands for a
    sequence of bytes: the character with code c is the byte c. */
module Utf8 {
  const RUNE_ERROR := 0xFFFD

  predicate Continues(c: char, low: int, high: int) {
    low <= c as int <= high
  }

  /** The range that the second byte of a sequence must fall in, by its first byte. */
  function SecondLow(b: int): int {
    if b == 0xE0 then 0xA0 else if b == 0xF0 then 0x90 else 0x80
  }

  function SecondHigh(b: int): int {
    if b == 0xED then 0x9F else if b == 0xF4 then 0x8F else 0xBF
  }

  /** How many bytes the first rune takes: an ill-formed sequence is one byte of RUNE_ERROR. */
  function Width(s: string): (w: nat)
    requires s != ""
    ensures 1 <= w <= |s|
  {
    var b := s[0] as int;
    if 0xC2 <= b <= 0xDF && |s| >= 2 && Continues(s[1], 0x80, 0xBF) then 2
    else if 0xE0 <= b <= 0xEF && |s| >= 3 && Continues(s[1], SecondLow(b), SecondHigh(b))
            && Continues(s[2], 0x80, 0xBF) then 3
    else if 0xF0 <= b <= 0xF4 && |s| >= 4 && Continues(s[1], SecondLow(b), SecondHigh(b))
            && Continues(s[2], 0x80, 0xBF) && Continues(s[3], 0x80, 0xBF) then 4
    else 1
  }

  function FirstRune(s: string): int
    requires s != ""
  {
    var b := s[0] as int;
    match Width(s)
    case 1 => if b < 0x80 then b else RUNE_ERROR
    case 2 => (b - 0xC0) * 64 + (s[1] as int - 0x80)
    case 3 => (b - 0xE0) * 4096 + (s[1] as int - 0x80) * 64 + (s[2] as int - 0x80)
    case _ => (b - 0xF0) * 262144 + (s[1] as int - 0x80) * 4096 + (s[2] as int - 0x80) * 64 + (s[3] as int - 0x80)
  }

  function Runes(s: string): seq<int> {
    if s == "" then [] else [FirstRune(s)] + Runes(s[Width(s)..])
  }

  /** unicode.IsControl: C0, DEL and C1. */
  predicate IsControl(rune: int) {
    0 <= rune < 0x20 || 0x7F <= rune < 0xA0
  }

  predicate HasByte(s: string, b: int) {
    exists i :: 0 <= i < |s| && s[i] as int == b
  }

  /** A C1 control is encoded as 0xC2 followed by 0x80 to 0x9F. */
  predicate C1At(s: string, i: nat) {
    i + 1 < |s| && s[i] as int == 0xC2 && 0x80 <= s[i + 1] as int < 0xA0
  }

  predicate HasC1(s: string) {
    exists i :: 0 <= i < |s| && C1At(s, i)
  }

  // ---------- runes and bytes ----------

  lemma FirstRuneRange(s: string)
    requires s != ""
    ensures Width(s) == 2 ==> 0x80 <= FirstRune(s) && (FirstRune(s) < 0xA0 <==> C1At(s, 0))
    ensures Width(s) > 2 ==> FirstRune(s) >= 0x800
    ensures Width(s) == 1 ==> !C1At(s, 0) && (FirstRune(s) == s[0] as int || FirstRune(s) == RUNE_ERROR)
    ensures Width(s) > 1 ==> s[0] as int >= 0xC2 && forall i :: 1 <= i < Width(s) ==> 0x80 <= s[i] as int <= 0xBF
  {
  }

  lemma {:induction false} AsciiRunesAreBytes(s: string, b: int)
    requires 0 <= b < 0x80
    ensures b in Runes(s) <==> HasByte(s, b)
    decreases |s|
  {
    if s == "" {
    } else {
      var w := Width(s);
      FirstRuneRange(s);
      AsciiRunesAreBytes(s[w..], b);
      if HasByte(s, b) {
        var i :| 0 <= i < |s| && s[i] as int == b;
        if i >= w {
          assert s[w..][i - w] == s[i];
        }
      }
      if HasByte(s[w..], b) {
        var i :| 0 <= i < |s[w..]| && s[w..][i] as int == b;
        assert s[i + w] as int == b;
      }
    }
  }

  /** A range loop meets a C1 control exactly where the two bytes stand, whatever surrounds them. */
  lemma {:induction false} C1RunesAreBytes(s: string)
    ensures (exists r :: r in Runes(s) && 0x80 <= r < 0xA0) <==> HasC1(s)
    decreases |s|
  {
    if s == "" {
    } else {
      var w := Width(s);
      FirstRuneRange(s);
      C1RunesAreBytes(s[w..]);
      C1InTail(s);
      assert Runes(s) == [FirstRune(s)] + Runes(s[w..]);
      if 0x80 <= FirstRune(s) < 0xA0 {
        assert FirstRune(s) in Runes(s);
      }
      if exists r :: r in Runes(s[w..]) && 0x80 <= r < 0xA0 {
        var r :| r in Runes(s[w..]) && 0x80 <= r < 0xA0;
        assert r in Runes(s);
      }
    }
  }

  lemma C1InTail(s: string)
    requires s != ""
    ensures HasC1(s) <==> C1At(s, 0) || HasC1(s[Width(s)..])
  {
    var w := Width(s);
    FirstRuneRange(s);
    if HasC1(s) {
      var i :| 0 <= i < |s| && C1At(s, i);
      if i >= w {
        assert C1At(s[w..], i - w);
      }
    }
    if HasC1(s[w..]) {
      var i :| 0 <= i < |s[w..]| && C1At(s[w..], i);
      assert C1At(s, i + w);
    }
  }

  /** A name holds a control rune exactly when it holds a C0 or DEL byte or an encoded C1. */
  lemma ControlRunesAreBytes(s: string)
    ensures (exists r :: r in Runes(s) && IsControl(r))
       <==> (exists b :: (0 <= b < 0x20 || b == 0x7F) && HasByte(s, b)) || HasC1(s)
  {
    C1RunesAreBytes(s);
    forall b | 0 <= b < 0x80
      ensures b in Runes(s) <==> HasByte(s, b)
    {
      AsciiRunesAreBytes(s, b);
    }
  }
}
