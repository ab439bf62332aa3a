/** internal/downlink/message_cursor.go: the position of a page in the message list and its
    text form.  Instants are nanoseconds since the Unix epoch; the zero time is 0. */
module Cursors {
  import opened Messages
  import opened Text

  datatype Cursor = Cursor(updatedAt: Time, messageId: string)

  const START := Cursor(0, "")

  const MIN_INT64: int := -0x8000_0000_0000_0000

  function NormaliseCursor(c: Cursor): Cursor {
    var id := TrimSpace(c.messageId);
    if id == "" || c.updatedAt == 0 then START else Cursor(c.updatedAt, id)
  }

  lemma NormaliseIdempotent(c: Cursor)
    ensures NormaliseCursor(NormaliseCursor(c)) == NormaliseCursor(c)
  {
    TrimIdempotent(c.messageId);
  }

  // ---- Unpadded URL-safe base64 ----------------------------------------------------------

  predicate Bytes(s: string) {
    forall i :: 0 <= i < |s| ==> s[i] as int < 256
  }

  function Symbol(v: nat): char
    requires v < 64
  {
    if v < 26 then ('A' as int + v) as char
    else if v < 52 then ('a' as int + v - 26) as char
    else if v < 62 then ('0' as int + v - 52) as char
    else if v == 62 then '-' else '_'
  }

  function SymbolValue(c: char): Option<nat> {
    if 'A' <= c <= 'Z' then Some(c as int - 'A' as int)
    else if 'a' <= c <= 'z' then Some(c as int - 'a' as int + 26)
    else if '0' <= c <= '9' then Some(c as int - '0' as int + 52)
    else if c == '-' then Some(62)
    else if c == '_' then Some(63)
    else None
  }

  lemma SymbolRoundTrip(v: nat)
    requires v < 64
    ensures SymbolValue(Symbol(v)) == Some(v)
    ensures Symbol(v) != '\n' && Symbol(v) != '\r' && 0x21 <= Symbol(v) as int < 0x80
  {
  }

  function Encode(s: string): string
    requires Bytes(s)
  {
    if s == [] then []
    else if |s| == 1 then
      var a := s[0] as int;
      [Symbol(a / 4), Symbol(a % 4 * 16)]
    else if |s| == 2 then
      var a, b := s[0] as int, s[1] as int;
      [Symbol(a / 4), Symbol(a % 4 * 16 + b / 16), Symbol(b % 16 * 4)]
    else
      var a, b, c := s[0] as int, s[1] as int, s[2] as int;
      [Symbol(a / 4), Symbol(a % 4 * 16 + b / 16), Symbol(b % 16 * 4 + c / 64), Symbol(c % 64)] + Encode(s[3..])
  }

  /** The decoder skips line breaks and ignores the unused low bits of the last symbol. */
  function Unwrapped(s: string): string {
    if s == [] then []
    else if s[0] == '\n' || s[0] == '\r' then Unwrapped(s[1..])
    else [s[0]] + Unwrapped(s[1..])
  }

  predicate Known(s: string) {
    forall i :: 0 <= i < |s| ==> SymbolValue(s[i]).Some?
  }

  function Value(c: char): (v: nat)
    requires SymbolValue(c).Some?
    ensures v < 64
  {
    SymbolValue(c).value
  }

  function DecodeSymbols(s: string): Option<string>
    requires Known(s)
  {
    if s == [] then Some([])
    else if |s| == 1 then None
    else
      var first := (Value(s[0]) * 4 + Value(s[1]) / 16) as char;
      if |s| == 2 then Some([first])
      else
        var second := (Value(s[1]) % 16 * 16 + Value(s[2]) / 4) as char;
        if |s| == 3 then Some([first, second])
        else
          var third := (Value(s[2]) % 4 * 64 + Value(s[3])) as char;
          var rest := DecodeSymbols(s[4..]);
          if rest.None? then None else Some([first, second, third] + rest.value)
  }

  function Decode(s: string): Option<string> {
    var t := Unwrapped(s);
    if Known(t) then DecodeSymbols(t) else None
  }

  lemma {:induction false} EncodedKnown(s: string)
    requires Bytes(s)
    ensures Known(Encode(s)) && (s != [] ==> Encode(s) != [])
    ensures forall i :: 0 <= i < |Encode(s)| ==>
              0x21 <= Encode(s)[i] as int < 0x80 && Encode(s)[i] != '\n' && Encode(s)[i] != '\r'
  {
    if |s| >= 3 {
      EncodedKnown(s[3..]);
      assert Encode(s) == Encode(s)[..4] + Encode(s[3..]);
    }
  }

  lemma {:induction false} UnwrappedSame(s: string)
    requires forall i :: 0 <= i < |s| ==> s[i] != '\n' && s[i] != '\r'
    ensures Unwrapped(s) == s
  {
    if s != [] {
      UnwrappedSame(s[1..]);
    }
  }

  lemma Regroup(a: int, b: int)
    requires 0 <= a < 256 && 0 <= b < 256
    ensures a / 4 * 4 + (a % 4 * 16 + b / 16) / 16 == a && (a % 4 * 16 + b / 16) % 16 == b / 16
    ensures (a % 16 * 4 + b / 64) / 4 == a % 16 && (a % 16 * 4 + b / 64) % 4 == b / 64
    ensures a / 16 * 16 + a % 16 == a && a / 64 * 64 + a % 64 == a
  {
  }

  lemma {:induction false} DecodeEncoded(s: string)
    requires Bytes(s)
    ensures Known(Encode(s)) && DecodeSymbols(Encode(s)) == Some(s)
    decreases |s|
  {
    EncodedKnown(s);
    if |s| == 1 {
      EncodedOne(s);
      DecodedOne(Encode(s), s[0] as int);
      assert s == [s[0]];
    } else if |s| == 2 {
      EncodedTwo(s);
      DecodedTwo(Encode(s), s[0] as int, s[1] as int);
      assert s == [s[0], s[1]];
    } else if |s| >= 3 {
      EncodedGroup(s);
      DecodeEncoded(s[3..]);
      DecodedGroup(Encode(s), s[0] as int, s[1] as int, s[2] as int);
      assert s == [s[0], s[1], s[2]] + s[3..];
    }
  }

  lemma EncodedOne(s: string)
    requires Bytes(s) && |s| == 1
    ensures var e := Encode(s);
            |e| == 2 && SymbolValue(e[0]) == Some(s[0] as int / 4) && SymbolValue(e[1]) == Some(s[0] as int % 4 * 16)
  {
    SymbolRoundTrip(s[0] as int / 4);
    SymbolRoundTrip(s[0] as int % 4 * 16);
  }

  lemma DecodedOne(e: string, a: int)
    requires Known(e) && |e| == 2 && 0 <= a < 256 && Value(e[0]) == a / 4 && Value(e[1]) == a % 4 * 16
    ensures DecodeSymbols(e) == Some([a as char])
  {
    Regroup(a, 0);
    assert Value(e[0]) * 4 + Value(e[1]) / 16 == a;
  }

  lemma EncodedTwo(s: string)
    requires Bytes(s) && |s| == 2
    ensures var e := Encode(s);
            var a, b := s[0] as int, s[1] as int;
            && |e| == 3 && SymbolValue(e[0]) == Some(a / 4) && SymbolValue(e[1]) == Some(a % 4 * 16 + b / 16)
            && SymbolValue(e[2]) == Some(b % 16 * 4)
  {
    var a, b := s[0] as int, s[1] as int;
    SymbolRoundTrip(a / 4);
    SymbolRoundTrip(a % 4 * 16 + b / 16);
    SymbolRoundTrip(b % 16 * 4);
  }

  lemma DecodedTwo(e: string, a: int, b: int)
    requires Known(e) && |e| == 3 && 0 <= a < 256 && 0 <= b < 256
    requires Value(e[0]) == a / 4 && Value(e[1]) == a % 4 * 16 + b / 16 && Value(e[2]) == b % 16 * 4
    ensures DecodeSymbols(e) == Some([a as char, b as char])
  {
    Regroup(a, b);
    Regroup(b, 0);
    assert Value(e[0]) * 4 + Value(e[1]) / 16 == a;
    assert Value(e[1]) % 16 * 16 + Value(e[2]) / 4 == b;
  }

  lemma EncodedGroup(s: string)
    requires Bytes(s) && |s| >= 3
    ensures var e := Encode(s);
            var a, b, c := s[0] as int, s[1] as int, s[2] as int;
            && |e| >= 4 && e[4..] == Encode(s[3..])
            && SymbolValue(e[0]) == Some(a / 4) && SymbolValue(e[1]) == Some(a % 4 * 16 + b / 16)
            && SymbolValue(e[2]) == Some(b % 16 * 4 + c / 64) && SymbolValue(e[3]) == Some(c % 64)
  {
    var a, b, c := s[0] as int, s[1] as int, s[2] as int;
    SymbolRoundTrip(a / 4);
    SymbolRoundTrip(a % 4 * 16 + b / 16);
    SymbolRoundTrip(b % 16 * 4 + c / 64);
    SymbolRoundTrip(c % 64);
  }

  lemma DecodedGroup(e: string, a: int, b: int, c: int)
    requires Known(e) && |e| >= 4 && 0 <= a < 256 && 0 <= b < 256 && 0 <= c < 256
    requires Value(e[0]) == a / 4 && Value(e[1]) == a % 4 * 16 + b / 16
    requires Value(e[2]) == b % 16 * 4 + c / 64 && Value(e[3]) == c % 64
    ensures var rest := DecodeSymbols(e[4..]);
            DecodeSymbols(e) == if rest.None? then None else Some([a as char, b as char, c as char] + rest.value)
  {
    Regroup(a, b);
    Regroup(b, c);
    Regroup(c, 0);
    assert Value(e[0]) * 4 + Value(e[1]) / 16 == a;
    assert Value(e[1]) % 16 * 16 + Value(e[2]) / 4 == b;
    assert Value(e[2]) % 4 * 64 + Value(e[3]) == c;
  }

  /** Decoding undoes encoding, for every byte string. */
  lemma Base64RoundTrip(s: string)
    requires Bytes(s)
    ensures Decode(Encode(s)) == Some(s)
  {
    EncodedKnown(s);
    UnwrappedSame(Encode(s));
    DecodeEncoded(s);
  }

  // ---- Decimal numbers -------------------------------------------------------------------

  predicate IsDigit(c: char) { '0' <= c <= '9' }

  predicate Digits(s: string) {
    s != [] && forall i :: 0 <= i < |s| ==> IsDigit(s[i])
  }

  function DigitsOf(n: nat): string {
    var d := [('0' as int + n % 10) as char];
    if n < 10 then d else DigitsOf(n / 10) + d
  }

  function FormatInt(n: int): string {
    if n < 0 then "-" + DigitsOf(-n) else DigitsOf(n)
  }

  function Number(s: string): nat
    requires forall i :: 0 <= i < |s| ==> IsDigit(s[i])
  {
    if s == [] then 0
    else
      var last := s[|s| - 1];
      assert IsDigit(last);
      Number(s[..|s| - 1]) * 10 + (last as int - '0' as int)
  }

  /** A sign, digits, and a value that fits into 64 bits. */
  function ParseInt(s: string): Option<int> {
    var negative := s != [] && s[0] == '-';
    var body := if negative || (s != [] && s[0] == '+') then s[1..] else s;
    if !Digits(body) then None
    else
      var value: int := if negative then 0 - Number(body) else Number(body);
      if MIN_INT64 <= value <= MAX_INT64 then Some(value) else None
  }

  lemma {:induction false} DigitsRoundTrip(n: nat)
    ensures Digits(DigitsOf(n)) && Number(DigitsOf(n)) == n
  {
    var s := DigitsOf(n);
    var last := ('0' as int + n % 10) as char;
    if n >= 10 {
      DigitsRoundTrip(n / 10);
      assert s[..|s| - 1] == DigitsOf(n / 10) && s[|s| - 1] == last;
    } else {
      assert s[..|s| - 1] == [];
    }
  }

  lemma IntRoundTrip(n: int)
    requires MIN_INT64 <= n <= MAX_INT64
    ensures ParseInt(FormatInt(n)) == Some(n)
    ensures FormatInt(n) != "" && ':' !in FormatInt(n)
    ensures IsDigit(FormatInt(n)[0]) || FormatInt(n)[0] == '-'
  {
    DigitsRoundTrip(if n < 0 then -n else n);
    if n < 0 {
      assert FormatInt(n)[1..] == DigitsOf(-n);
    }
  }

  // ---- The text form of a cursor ---------------------------------------------------------

  function FormatCursor(cursor: Cursor): string
    requires Bytes(cursor.messageId)
  {
    var c := NormaliseCursor(cursor);
    TrimKeepsBytes(cursor.messageId);
    if c == START then "" else FormatInt(c.updatedAt) + ":" + Encode(c.messageId)
  }

  function FirstColon(s: string): nat
    ensures FirstColon(s) <= |s|
    ensures FirstColon(s) < |s| ==> s[FirstColon(s)] == ':'
  {
    if s == [] || s[0] == ':' then 0 else 1 + FirstColon(s[1..])
  }

  /** None is the invalid-cursor error. */
  function ParseCursor(text: string): Option<Cursor> {
    var raw := TrimSpace(text);
    if raw == "" then Some(START)
    else
      var i := FirstColon(raw);
      if i == |raw| || i == 0 || i + 1 == |raw| then None
      else
        var updated := ParseInt(raw[..i]);
        var id := Decode(raw[i + 1..]);
        if updated.None? || updated.value <= 0 || id.None? || id.value == "" then None
        else Some(NormaliseCursor(Cursor(updated.value, id.value)))
  }

  lemma {:induction false} TrimLeftBytes(s: string)
    requires Bytes(s)
    ensures Bytes(TrimLeft(s))
    decreases |s|
  {
    var n := SpaceAtFront(s);
    if n != 0 {
      TrimLeftBytes(s[n..]);
    }
  }

  lemma {:induction false} TrimRightBytes(s: string)
    requires Bytes(s)
    ensures Bytes(TrimRight(s))
    decreases |s|
  {
    var n := SpaceAtBack(s);
    if n != 0 {
      TrimRightBytes(s[..|s| - n]);
    }
  }

  lemma TrimKeepsBytes(s: string)
    ensures Bytes(s) ==> Bytes(TrimSpace(s))
  {
    if Bytes(s) {
      TrimLeftBytes(s);
      TrimRightBytes(TrimLeft(s));
    }
  }

  /** Text that starts and ends with a visible ASCII character has nothing to trim. */
  lemma NothingToTrim(s: string)
    requires s != "" && 0x21 <= s[0] as int < 0x80 && 0x21 <= s[|s| - 1] as int < 0x80
    ensures TrimSpace(s) == s
  {
    NoSpaceInFront(s);
    NoSpaceBehind(s);
  }

  lemma NoSpaceInFront(s: string)
    requires s != "" && 0x21 <= s[0] as int < 0x80
    ensures TrimLeft(s) == s
  {
    assert SpaceAtFront(s) == 0;
  }

  lemma NoSpaceBehind(s: string)
    requires s != "" && 0x21 <= s[|s| - 1] as int < 0x80
    ensures TrimRight(s) == s
  {
    assert SpaceAtBack(s) == 0;
  }

  lemma {:induction false} ColonAfter(s: string, t: string)
    requires ':' !in s
    ensures FirstColon(s + ":" + t) == |s|
  {
    if s != [] {
      assert (s + ":" + t)[1..] == s[1..] + ":" + t;
      ColonAfter(s[1..], t);
    }
  }

  /** Reading a cursor's text gives the cursor back, in its normal form, exactly when it marks
      the start or its instant is after the epoch; otherwise it is refused. */
  lemma CursorRoundTrip(cursor: Cursor)
    requires Bytes(cursor.messageId) && MIN_INT64 <= cursor.updatedAt <= MAX_INT64
    ensures ParseCursor(FormatCursor(cursor)) ==
              if NormaliseCursor(cursor) == START || cursor.updatedAt > 0 then Some(NormaliseCursor(cursor)) else None
  {
    var c := NormaliseCursor(cursor);
    if c != START {
      TrimKeepsBytes(cursor.messageId);
      NormaliseIdempotent(cursor);
      IntRoundTrip(c.updatedAt);
      Base64RoundTrip(c.messageId);
      EncodedKnown(c.messageId);
      ParsedParts(FormatInt(c.updatedAt), Encode(c.messageId), c.updatedAt, c.messageId);
    }
  }

  predicate Visible(c: char) { 0x21 <= c as int < 0x80 }

  lemma ParsedParts(number: string, id: string, updatedAt: Time, messageId: string)
    requires number != "" && ':' !in number && Visible(number[0]) && id != "" && Visible(id[|id| - 1])
    requires ParseInt(number) == Some(updatedAt) && Decode(id) == Some(messageId) && messageId != ""
    ensures ParseCursor(number + ":" + id)
            == if updatedAt > 0 then Some(NormaliseCursor(Cursor(updatedAt, messageId))) else None
  {
    JoinedTrimmed(number, id);
    JoinedSplit(number, id);
    ParsedAt(number + ":" + id, |number|, updatedAt, messageId);
  }

  lemma JoinedTrimmed(number: string, id: string)
    requires number != "" && Visible(number[0]) && id != "" && Visible(id[|id| - 1])
    ensures TrimSpace(number + ":" + id) == number + ":" + id
  {
    NothingToTrim(number + ":" + id);
  }

  lemma JoinedSplit(number: string, id: string)
    requires ':' !in number
    ensures var text := number + ":" + id;
            FirstColon(text) == |number| && text[..|number|] == number && text[|number| + 1..] == id
  {
    ColonAfter(number, id);
  }

  /** Trimmed text with its first colon inside is read in two parts. */
  lemma ParsedAt(text: string, i: nat, updatedAt: Time, messageId: string)
    requires TrimSpace(text) == text && FirstColon(text) == i && 0 < i && i + 1 < |text|
    requires ParseInt(text[..i]) == Some(updatedAt) && Decode(text[i + 1..]) == Some(messageId) && messageId != ""
    ensures ParseCursor(text)
            == if updatedAt > 0 then Some(NormaliseCursor(Cursor(updatedAt, messageId))) else None
  {
  }
}
