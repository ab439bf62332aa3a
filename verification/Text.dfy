/** Go strings are byte sequences; a `char` below 256 stands for a byte. */
module Text {

  /** The byte length of the white-space rune that starts at the front of `s`, or 0:
      ASCII space and control spaces, U+0085, U+00A0, U+1680, U+2000-200A, U+2028-2029,
      U+202F, U+205F and U+3000 in UTF-8. */
  function SpaceAtFront(s: string): nat
    ensures SpaceAtFront(s) <= |s|
  {
    if |s| >= 1 && IsSpace1(s[..1]) then 1
    else if |s| >= 2 && IsSpace2(s[..2]) then 2
    else if |s| >= 3 && IsSpace3(s[..3]) then 3
    else 0
  }

  function SpaceAtBack(s: string): nat
    ensures SpaceAtBack(s) <= |s|
  {
    if |s| >= 1 && IsSpace1(s[|s| - 1..]) then 1
    else if |s| >= 2 && IsSpace2(s[|s| - 2..]) then 2
    else if |s| >= 3 && IsSpace3(s[|s| - 3..]) then 3
    else 0
  }

  predicate IsSpace1(s: string)
    requires |s| == 1
  {
    var a := s[0] as int;
    a == 0x20 || 0x09 <= a <= 0x0d
  }

  predicate IsSpace2(s: string)
    requires |s| == 2
  {
    s[0] as int == 0xc2 && (s[1] as int == 0x85 || s[1] as int == 0xa0)
  }

  predicate IsSpace3(s: string)
    requires |s| == 3
  {
    var a, b, c := s[0] as int, s[1] as int, s[2] as int;
    || (a == 0xe1 && b == 0x9a && c == 0x80)
    || (a == 0xe2 && b == 0x80 && (0x80 <= c <= 0x8a || c == 0xa8 || c == 0xa9 || c == 0xaf))
    || (a == 0xe2 && b == 0x81 && c == 0x9f)
    || (a == 0xe3 && b == 0x80 && c == 0x80)
  }

  function TrimLeft(s: string): string
    decreases |s|
  {
    if SpaceAtFront(s) == 0 then s else TrimLeft(s[SpaceAtFront(s)..])
  }

  function TrimRight(s: string): string
    decreases |s|
  {
    if SpaceAtBack(s) == 0 then s else TrimRight(s[..|s| - SpaceAtBack(s)])
  }

  /** `strings.TrimSpace`. */
  function TrimSpace(s: string): string {
    TrimRight(TrimLeft(s))
  }

  lemma {:induction false} TrimLeftDone(s: string)
    ensures SpaceAtFront(TrimLeft(s)) == 0
    decreases |s|
  {
    if SpaceAtFront(s) != 0 {
      TrimLeftDone(s[SpaceAtFront(s)..]);
    }
  }

  /** Trimming the back leaves a front that does not start with a space as it is. */
  lemma {:induction false} TrimRightDone(s: string)
    requires SpaceAtFront(s) == 0
    ensures SpaceAtBack(TrimRight(s)) == 0 && SpaceAtFront(TrimRight(s)) == 0
    decreases |s|
  {
    if SpaceAtBack(s) != 0 {
      var t := s[..|s| - SpaceAtBack(s)];
      assert |t| >= 1 ==> t[..1] == s[..1];
      assert |t| >= 2 ==> t[..2] == s[..2];
      assert |t| >= 3 ==> t[..3] == s[..3];
      TrimRightDone(t);
    }
  }

  /** A trimmed string has no space to trim at either end. */
  lemma TrimIdempotent(s: string)
    ensures TrimSpace(TrimSpace(s)) == TrimSpace(s)
  {
    TrimLeftDone(s);
    TrimRightDone(TrimLeft(s));
  }
}
